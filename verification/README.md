# Verification of the pelagos-mac core

pelagos-mac runs Linux containers in a virtual machine on macOS.  A command line program talks to
a daemon, the daemon to a guest process over vsock, a relay carries the VM's network frames, and a
privileged helper owns the packet filter.  This project models the parts of it that carry state,
protocols or arithmetic, and proves what they keep.

| file | models |
|---|---|
| `Calendar.dfy` | the UTC stamp that the kernel command line carries: the closed-form date against counting days |
| `Bytes.dfy`, `Text.dfy`, `Paths.dfy`, `Wrappers.dfy` | big-endian integers; splitting, trimming and decimal numbers; paths by their components; optional values |
| `Streams.dfy` | descriptors with short reads and writes, and the loops over them |
| `VmnetRelay.dfy` | length-prefixed Ethernet frames between socket_vmnet and the VM |
| `ExecFrames.dfy` | the binary frames of an exec session, and the host's receive loop |
| `ExecSession.dfy`, `ExecSessionSafety.dfy`, `ExecSessionEnds.dfy` | one exec session from handshake to exit code, as steps of host, daemon and guest over bounded byte channels; what it keeps, and that it ends |
| `Console.dfy` | the console ring buffer and its replay |
| `Events.dfy`, `EventStream.dfy`, `EventBatches.dfy` | the container event diff, its broadcast to subscribers, send by send, and which batches arrive whole |
| `Checksum.dfy`, `NdpFrames.dfy`, `TunRelay.dfy` | the two ICMPv6 checksums, the frame builders, and the relay between VM and utun |
| `Shares.dfy`, `MountCheck.dfy`, `SharePaths.dfy` | volume specs as shares; the daemon's list and which later processes it accepts; host paths as guest paths and back |
| `VmConf.dfy`, `ConfText.dfy`, `Networks.dfy`, `Subnets.dfy` | `vm.conf` as it is read, and as text; networks as numbers, and one /24 for each profile |
| `PfHelper.dfy`, `PfHistory.dfy` | the helper's relays, redirections and packet filter anchor; the same told from the history of requests |
| `Ports.dfy`, `PortListeners.dfy` | the daemon's registry of port forwards, and the threads that listen for it |

Objects that the source updates in place are classes here, and each of their methods is tied to a
function on values; what the source promises is proved about that function over every run.
Concurrent parts (exec, event stream, port listeners) are state machines whose steps interleave
freely.

The world outside enters as parameters or free choices: how much a read or write moves, which
system commands succeed, what a state directory holds, when a timer fires.  JSON is a pair of
functions of which only this is assumed: texts are not empty, contain no newline, and are read back
as they were written.

## Where the code does not do what its text says

* `pelagos-mac/src/main.rs:1747-1754` says that the daemon recognises its parent's home share as
  the first volume.  The volumes share comes first, so it never does; the list is still rebuilt
  when the volumes directory lies under HOME, and only then (`MountCheck.DaemonRebuildsList`).
* `pelagos-docker/src/main.rs:1002-1020` maps guest paths back by text prefix, so `/mnt/share10`
  is taken for a path in `share1` (`SharePaths.ShareRoundTrip`, `SharePaths.Share10IsLost`), and a
  path given twice in two spellings comes back in the first of them (`SharePaths.TwoSpellings`).
* `pelagos-mac/src/state.rs:326-339` appends to a file that may not end in a newline; the address
  then becomes part of the unfinished line and is not found again (`VmConf.AppendedIsFound`), so that
  two profiles can be given one subnet (`Subnets.UnfinishedClashes`); the exact condition is in
  `Subnets.KeptApartExactly`.
* `pelagos-guest/src/main.rs:2686-2692` speaks of dropping a batch for a full channel; the events
  that fitted stay queued, and a batch larger than the room arrives whole if the client reads fast
  enough (`EventBatches.BatchIsCut`, `EventBatches.BatchArrivesWhole`).
* `pelagos-mac/src/daemon.rs:142-144` says that dropping the handle removes a forward; the compose
  and exit paths do not drop it, so the proxy goes on (`Ports.LingersSince`).  Registering the port
  again is answered Ok, but the new proxy can fail to bind while the old one still holds the port,
  and then nobody listens (`PortListeners.RebindRace`, `PortListeners.DeafStays`).
* `pelagos-vz/src/tun_relay.rs:543-574` answers every solicitation as solicited, to its source.  A
  host that probes for a duplicate of the gateway's address has none, so that its answer goes to the
  unspecified address and reaches nobody (`TunRelay.DuplicateProbeIsUnanswered`); an answer is
  accepted exactly when the source was neither unspecified nor multicast (`NdpFrames.NaIsAccepted`).
* `pelagos-pfctl/src/main.rs:542-548` takes any active relay's egress interface for the redirections
  because all are the same; where they are not, the order of a hash map decides
  (`PfHelper.RedirectAlikeExactly`).
* The event diff is exact for distinct names; for repeated names the exact condition is
  `Events.TellsTruth` (`Events.DiffIsExact`, `Events.RepeatedNamesMislead`).

## Model

| member | source | states |
|---|---|---|
| Calendar.CivilRefinesCounting | pelagos-mac/src/main.rs:1666-1680 | For every day count from the epoch the closed form gives the date reached by counting days one at a time under the Gregorian leap rule, and that date is a valid one. |
| Calendar.CountingIsNumbering | pelagos-mac/src/main.rs:1666-1680 | Counting n days from 1 January 1970 reaches the date whose own day number (days in whole years, months and the day) is n. |
| Calendar.StampRoundTrip | pelagos-mac/src/main.rs:1659-1680 | Year, month, day, hours, minutes and seconds of any second count lie in their ranges and recombine to exactly that count. |
| Calendar.CountingInMarchYear | pelagos-mac/src/main.rs:1668-1680 | Counting reaches day `doy` of the year that starts on 1 March, for every such year and day. |
| Calendar.MarchDateNext | pelagos-mac/src/main.rs:1675-1678 | The month and day formulas step from each day of a March-based year to its calendar successor, across months, leap days and the turn of the year. |
| Calendar.YearOfEraContains | pelagos-mac/src/main.rs:1670-1674 | Inside a 400-year era the year-of-era formula names the one year whose days contain the given day. |
| Bytes.MostSignificantFirst | pelagos-guest/src/main.rs:62-62 | Numbers go over the wire with the most significant byte first: shifting a number by a byte moves its bytes along. |
| Streams.ReadExact | pelagos-vz/src/socket_vmnet.rs:303-319 | Done means the buffer holds the next n bytes of the stream and nothing more was taken, Eof that fewer than n were left; it fails if and only if a read returned an error, whatever the pattern of short reads. |
| Streams.WriteAll | pelagos-vz/src/socket_vmnet.rs:321-337 | All bytes are written in order, whatever the pattern of short writes, unless a write returned an error; then a prefix was. |
| VmnetRelay.RelayVmnetToAvf | pelagos-vz/src/socket_vmnet.rs:135-176 | Unless a read or a send returned an error, exactly the frames decoded from the stream are sent, up to its end or its first bad length, whatever the pattern of short reads; otherwise a prefix of them. |
| VmnetRelay.RelayAvfToVmnet | pelagos-vz/src/socket_vmnet.rs:180-213 | Unless a receive or a write returned an error, the bytes written are exactly the encoding of the datagrams up to the first empty one; otherwise a prefix of it. |
| VmnetRelay.DecodeEncode | pelagos-vz/src/socket_vmnet.rs:135-213 | Decoding what one direction writes gives back the frames in order and leaves whatever follows. |
| VmnetRelay.DecodeOfPrefix | pelagos-vz/src/socket_vmnet.rs:135-213 | However early the stream is cut, what decodes is a prefix of the frames sent. |
| VmnetRelay.FramesNeverSpoil | pelagos-vz/src/socket_vmnet.rs:146-153 | What the other direction writes is never given up for a bad length. |
| VmnetRelay.RelayIsTransparent | pelagos-vz/src/socket_vmnet.rs:135-213 | The other direction receives exactly the frames sent if and only if each has between 1 and 65536 bytes. |
| ExecFrames.DecodeEncode | pelagos-mac/src/main.rs:714-731 | A frame is read back as sent, leaving the rest of the stream untouched, if and only if its length fits the 32-bit header field. |
| ExecFrames.SendFrame | pelagos-guest/src/main.rs:60-65 | Type, length and data are written in full, or a prefix of them exactly when a write returned an error. |
| ExecFrames.RecvFrame | pelagos-guest/src/main.rs:67-76 | Exactly one frame is taken from the descriptor; Eof means there was no whole frame left, and it fails if and only if a read returned an error. |
| ExecFrames.ReadGuestFrames | pelagos-mac/src/main.rs:3391-3425 | Unless a read returned an error, what is printed on each stream and the code returned are those of the whole stream; otherwise prefixes are printed and the code is 1. |
| ExecFrames.SessionIsRead | pelagos-mac/src/main.rs:3395-3410 | For all output frames, every 32-bit code and whatever follows EXIT: both streams are printed in full and in order, and the code is returned. |
| ExecFrames.ExitIsRead | pelagos-mac/src/main.rs:3404-3410 | The four bytes of an EXIT frame are the code; with another number of bytes it is 0. |
| ExecFrames.WithoutExit | pelagos-mac/src/main.rs:3411-3423 | A stream that ends without EXIT, or has a frame of another kind, is printed up to there, and the code is 1. |
| ExecFrames.EveryStream | pelagos-mac/src/main.rs:3391-3425 | There are no other streams: each is output frames followed by EXIT or by such an end. |
| ExecSessionSafety.OutputIsFaithful | pelagos-guest/src/main.rs:2236-2338 | In every run, at every moment, the host has shown a prefix of each of the child's streams; once it has read EXIT it has shown both in full and returns the child's code. |
| ExecSessionSafety.EndsByExit | pelagos-mac/src/main.rs:3217-3261 | A session ends without EXIT if and only if the image pull failed or the command was longer than the daemon's 64 KiB bound, and then nothing was shown and the code is 1. |
| ExecSessionSafety.StdinIsFaithful | pelagos-mac/src/main.rs:3205-3377 | In every run the guest's buffered reader is empty when it is dropped at the switch to frames, the child's input is a prefix of what the host read, and the child sees the end of its input only after all of it, whatever resize frames come between. |
| ExecSessionEnds.NeverStuck | pelagos-guest/src/main.rs:2236-2338 | Until the host has finished, some step that needs no user input is possible, however full the bounded channels between the processes are: the session cannot deadlock. |
| ExecSessionEnds.StepPays | pelagos-mac/src/daemon.rs:586-660 | Every step of host, daemon, guest and wires makes the work that is left smaller; only input from the user adds to it. |
| ExecSessionEnds.SessionsEnd | pelagos-mac/src/main.rs:3205-3425 | The length of every run is bounded by what was there at the start and what was typed, and a run that cannot go on without the user has ended at the host. |
| ExecSessionEnds.EndsLeftAlone | pelagos-mac/src/main.rs:3391-3425 | From every reachable state a bounded number of steps without the user leads to the end: EXIT with both streams in full and the child's code, unless the pull failed or the command was too long. |
| ExecSessionSafety.RunInv | pelagos-guest/src/main.rs:481-500 | The invariant that ties the bytes on every channel to the queues of lines and frames holds in every state of every run. |
| ExecSessionSafety.WireInv | pelagos-mac/src/daemon.rs:586-660 | The daemon's byte-by-byte peek, its replay of the first line and every regrouping of bytes on the channels keep the invariant. |
| ExecSessionSafety.PeekInOrder | pelagos-mac/src/daemon.rs:595-616 | The daemon takes exactly the first line, and lets it through exactly when it is within its bound. |
| ExecSessionSafety.GuestInv | pelagos-guest/src/main.rs:1979-2028 | Every step of the guest keeps the invariant: reading the command, pull progress, Ready, each output frame, EXIT after both streams ended, each input frame. |
| ExecSessionSafety.OutputInv | pelagos-guest/src/main.rs:2287-2330 | A frame begun by either output thread, or EXIT, keeps the invariant under the writer's mutex. |
| ExecSessionSafety.SpawnErrorInv | pelagos-guest/src/main.rs:2241-2250 | A child that cannot be started is reported as one error frame and EXIT with code 1. |
| ExecSessionSafety.StdinFrameInv | pelagos-guest/src/main.rs:2262-2285 | The frame the guest's input thread takes is the oldest one the host sent; a child that stops reading gets a prefix of it. |
| ExecSessionSafety.HostInv | pelagos-mac/src/main.rs:3217-3377 | Every step of the host keeps the invariant: lines, frames, typed input, end of input, resize. |
| ExecSessionSafety.ShowIsReading | pelagos-mac/src/main.rs:3391-3425 | Frame by frame the host of a session shows and returns what the receive loop makes of the whole stream. |
| Console.ConsoleRingBuffer.constructor | pelagos-mac/src/daemon.rs:1017-1023 | A new ring of any capacity, zero included, is empty. |
| Console.ConsoleRingBuffer.PushSlice | pelagos-mac/src/daemon.rs:1026-1044 | After a push of any length the ring holds the last `cap` bytes of what it held followed by the data. |
| Console.ConsoleRingBuffer.ReplayToFd | pelagos-mac/src/daemon.rs:1049-1083 | None, one or two non-empty writes, which concatenate to exactly the ring's contents. |
| Console.StoreOne | pelagos-mac/src/daemon.rs:1034-1043 | Writing one byte at the tail and moving head or length is appending it to the last `cap` bytes. |
| Console.PushesKeepTheLast | pelagos-mac/src/daemon.rs:1026-1044 | However the bytes were cut into pushes, the last `n` of all of them are kept. |
| Console.ConsoleRelayLoop | pelagos-mac/src/daemon.rs:1109-1167 | Each client in turn is written the last 256 KiB that came while nobody was attached, then its own session, over every sequence of wake-ups. |
| Console.FirstClientSeesAll | pelagos-mac/src/daemon.rs:1138-1164 | The first client gets all that the VM wrote, in order, if and only if no more than 256 KiB came before it. |
| Console.ReplayedAgain | pelagos-mac/src/daemon.rs:1138-1150 | What was replayed to one client is replayed to the next as well, each time before the session. |
| Events.DiffContainerStates | pelagos-guest/src/main.rs:2625-2677 | The two loops give the arrivals in the order of the current list followed by the departures in the order of the previous one. |
| Events.EventsAreExact | pelagos-guest/src/main.rs:2625-2677 | With distinct names an event is told if and only if it is Started with the current entry of a container that arrived, or Exited with the last known exit code of one that is gone or has stopped. |
| Events.EventsAreOnce | pelagos-guest/src/main.rs:2625-2677 | With distinct names no event is told twice. |
| Events.FindByName | pelagos-guest/src/main.rs:2633-2633 | The first container of that name, or none. |
| Events.DiffIsExact | pelagos-guest/src/main.rs:2625-2677 | Folding the events over what ran before gives exactly what runs now, if and only if every running name that is new has a running last entry, and every one that ran before has a running first entry. |
| Events.DiffTracks | pelagos-guest/src/main.rs:2625-2677 | The same for one name alone. |
| Events.RepeatedNamesMislead | pelagos-guest/src/main.rs:2625-2677 | Two pairs of lists with a repeated name on which folding the events gives the wrong names: a new name, and one that ran before. |
| Events.DistinctTellsTruth | pelagos-guest/src/main.rs:2625-2677 | With distinct names no name misleads, including containers first seen already exited. |
| Events.TrackArrivals | pelagos-guest/src/main.rs:2631-2655 | What the first loop makes a follower believe about each name. |
| Events.TrackDepartures | pelagos-guest/src/main.rs:2657-2674 | What the second loop makes a follower believe about each name. |
| EventStream.EventHub.PollOnce | pelagos-guest/src/main.rs:2612-2623 | One turn of the poller, with any deliveries, snapshots and hang-ups between any two of its sends, is a run of the state machine that ends with the new poll remembered and no broadcast open. |
| EventStream.EventHub.BroadcastEvents | pelagos-guest/src/main.rs:2679-2699 | Every subscriber has its turn, in order, as steps of the state machine. |
| EventStream.EventHub.TrySendAll | pelagos-guest/src/main.rs:2681-2697 | One turn, event by event up to the first failure, is a run of the state machine; only a receiver that is gone leaves the list. |
| EventStream.EventHub.Register | pelagos-guest/src/main.rs:2708-2709 | Registration is the state machine's Subscribe step, possible exactly while no broadcast holds the list. |
| EventBatches.FittingBatchIsKept | pelagos-guest/src/main.rs:2681-2698 | From the moment a channel has room for the rest of a batch, every run either is still in that turn, with room, or has ended it: with every event taken after exactly as many sends, or because the receiver hung up. |
| EventBatches.CutsWereFull | pelagos-guest/src/main.rs:2686-2692 | In every run, whoever missed events of a batch had a channel of 256 events at one of that turn's sends, was connected, and keeps as many events of the batch as had been taken by then. |
| EventBatches.BatchIsCut | pelagos-guest/src/main.rs:2686-2692 | For every difference of more than 256 events, a run that ends with the subscriber on the list and the first 256 of them. |
| EventBatches.BatchArrivesWhole | pelagos-guest/src/main.rs:2679-2742 | For every difference of any size, a run in which the client gets all of it. |
| EventBatches.AllStarted | pelagos-guest/src/main.rs:2631-2655 | As many events as containers, when all of them start at once: batches of any size occur. |
| EventBatches.CutOnlyWhenFull | pelagos-guest/src/main.rs:2686-2692 | One send to a connected receiver fails if and only if its channel holds 256 events at that moment; the subscriber then keeps what it has of the batch and stays. |
| EventStream.HeardArePrefixes | pelagos-guest/src/main.rs:2679-2742 | In every run and at every moment a subscriber has heard a prefix of each batch since it registered, in order, and what has been sent of the one under way; the channel never exceeds 256. |
| EventStream.StepInv | pelagos-guest/src/main.rs:2612-2742 | Every step of poller, single sends, registrations, snapshots, deliveries and hang-ups keeps each subscriber in step with the polls. |
| EventStream.HeardIsComplete | pelagos-guest/src/main.rs:2612-2742 | A subscriber whose channel took every batch whole has heard exactly the differences of successive polls since it registered, in order. |
| EventStream.BeliefAgrees | pelagos-guest/src/main.rs:2705-2742 | Such a subscriber agrees with the latest poll on every name mentioned since it registered; on any other it keeps its snapshot's word and the polls at both ends agree. |
| EventStream.DisagreesOnlyByBlip | pelagos-guest/src/main.rs:2705-2742 | With distinct names it disagrees on a name if and only if no event mentioned the name and the snapshot differed from the poll before registration. |
| EventStream.BlipStays | pelagos-guest/src/main.rs:2705-2718 | A run in which the snapshot catches a container that no poll sees, and the client keeps believing in it. |
| Checksum.RelayChecksum | pelagos-vz/src/tun_relay.rs:823-853 | The running-sum implementation computes the specified checksum for every address pair and payload, in wrapping 32-bit arithmetic. |
| Checksum.HelperChecksum | pelagos-pfctl/src/main.rs:796-826 | The pseudo-header-buffer implementation computes the same value on every input. |
| Checksum.FoldCarries | pelagos-vz/src/tun_relay.rs:848-852 | The fold loop ends with the representative in 1..65535 of a non-zero sum modulo 65535, and with 0 for 0. |
| Checksum.CarryKeepsFold | pelagos-vz/src/tun_relay.rs:849-851 | One fold step preserves that representative and makes a sum above 16 bits smaller. |
| Checksum.PseudoHeaderWords | pelagos-pfctl/src/main.rs:798-807 | The 40-byte pseudo-header adds up to the parts that the other implementation adds one by one. |
| Checksum.ReceiverAccepts | pelagos-vz/src/tun_relay.rs:660-662 | With the checksum in bytes 2 and 3 the receiver's sum folds to 0xFFFF if and only if the sender's 32-bit sum wrapped a multiple of 65535 times. |
| Checksum.ShortPayloadsAccepted | pelagos-vz/src/tun_relay.rs:823-853 | Up to 131039 payload bytes, and up to 131041 with the checksum field still zero, the sum cannot wrap; so every receiver accepts. |
| Checksum.LongestSafeIsTight | pelagos-vz/src/tun_relay.rs:823-853 | At 131040 bytes there are inputs for which the sum wraps. |
| Checksum.LongestSealedIsTight | pelagos-vz/src/tun_relay.rs:660-662 | At 131042 bytes with the checksum field zero there is a payload whose checksum the receiver rejects. |
| NdpFrames.BuildRa | pelagos-vz/src/tun_relay.rs:634-680 | The 110 bytes are the advertisement with its checksum under its IPv6 and Ethernet headers. |
| NdpFrames.BuildNdpNa | pelagos-vz/src/tun_relay.rs:780-820 | The 86 bytes are the solicited advertisement of the target, sent from the target to the asker. |
| NdpFrames.BuildProbeNs | pelagos-pfctl/src/main.rs:915-949 | The 86 bytes are a solicitation for the router, addressed to the router alone. |
| NdpFrames.BuildGratuitousNa | pelagos-pfctl/src/main.rs:966-1008 | The 86 bytes are the unsolicited advertisement of the VM's address to all nodes. |
| NdpFrames.BuildArpReply | pelagos-vz/src/tun_relay.rs:753-774 | The 42 bytes are the reply for the gateway address. |
| NdpFrames.RaIsAccepted | pelagos-vz/src/tun_relay.rs:634-680 | For every prefix a receiver accepts headers, hop limit and checksum, the message passes section 6.1.2 of RFC 4861, says hop limit 64, no managed configuration and a lifetime of 1800 seconds, and its options are the prefix and the gateway's link-layer address. |
| NdpFrames.PrefixIsRead | pelagos-vz/src/tun_relay.rs:641-659 | A host reads the prefix as on-link and for address configuration, 64 bits, valid for a day and preferred for less, and can configure an address unless the prefix is link-local. |
| NdpFrames.NaIsAccepted | pelagos-vz/src/tun_relay.rs:780-820 | Headers, hop limit and checksum are right; addresses and message pass RFC 4291 and section 7.1.2 of RFC 4861 if and only if the solicitation came neither from a multicast nor from the unspecified address; it names the target and the gateway's MAC. |
| NdpFrames.GratuitousNaIsAccepted | pelagos-pfctl/src/main.rs:966-1008 | The headers are right, and addresses and message are valid if and only if the announced address is not multicast. |
| NdpFrames.ProbeNsIsAccepted | pelagos-pfctl/src/main.rs:915-949 | The headers are right, and addresses and message pass section 7.1.1 of RFC 4861 if and only if neither the router's nor the VM's address is multicast or unspecified. |
| NdpFrames.DuplicateProbeIsValid | pelagos-vz/src/tun_relay.rs:543-574 | The probe that a host sends for a duplicate of the gateway's address is a valid solicitation without a source. |
| NdpFrames.ArpReplyIsRead | pelagos-vz/src/tun_relay.rs:753-774 | A receiver reads: the gateway's address is at the gateway's MAC, told to the VM. |
| TunRelay.RelayState.ProcessAvfFrame | pelagos-vz/src/tun_relay.rs:454-506 | One frame from the VM: MAC learned, answer sent, packet passed on or alias recorded, and nothing else. |
| TunRelay.RelayState.HandleIp6 | pelagos-vz/src/tun_relay.rs:483-501 | Router and gateway solicitations are consumed; everything else is considered for the alias and passed on. |
| TunRelay.RelayState.HandleArp | pelagos-vz/src/tun_relay.rs:519-541 | A reply exactly for well-formed requests for the gateway address. |
| TunRelay.RelayState.HandleNdpNs | pelagos-vz/src/tun_relay.rs:543-574 | Consumed if and only if the target is a gateway address and the MAC is known; then one advertisement is sent. |
| TunRelay.RelayState.HandleRs | pelagos-vz/src/tun_relay.rs:577-591 | One advertisement if the host has a prefix, nothing otherwise. |
| TunRelay.RelayState.MaybeAssignGuaAlias | pelagos-vz/src/tun_relay.rs:600-627 | An alias is recorded only as the first, only inside the prefix, never for the unspecified address, and only when granted. |
| TunRelay.RelayState.ProcessUtunPacket | pelagos-vz/src/tun_relay.rs:701-734 | A packet of a known family becomes one frame for the VM once its MAC is known; anything else is dropped. |
| TunRelay.RelayState.RunRelay | pelagos-vz/src/tun_relay.rs:346-449 | Every interleaving of frames, packets and advertisement timer leaves the state that the run function gives, and hands on the traffic that it gives; a failed send changes neither. |
| TunRelay.TimerAdvertises | pelagos-vz/src/tun_relay.rs:429-444 | After every run the timer sends exactly one frame, which every receiver takes for a valid advertisement of the prefix, and changes nothing else; without a prefix it does nothing. |
| TunRelay.RouterIsFound | pelagos-vz/src/tun_relay.rs:577-591 | Every router solicitation gets such an advertisement, if there is a prefix. |
| TunRelay.GatewayIsFound | pelagos-vz/src/tun_relay.rs:543-574 | A solicitation for either of the gateway's addresses is answered, and its sender reads the answer if and only if it gave a source that is neither multicast nor unspecified. |
| TunRelay.GatewayIsFoundByArp | pelagos-vz/src/tun_relay.rs:519-541 | An ARP request for the gateway's address is answered with its MAC, and one for any other address is dropped. |
| TunRelay.InboundExactly | pelagos-vz/src/tun_relay.rs:701-734 | From the host exactly the packets of the two families go to the VM, under their types, and none before its MAC is known. |
| TunRelay.MacIsFirstSource | pelagos-vz/src/tun_relay.rs:459-473 | Over every run the MAC is the source of the first frame of at least 14 bytes. |
| TunRelay.EachFrameOnce | pelagos-vz/src/tun_relay.rs:454-506 | After any run each frame is answered, passed on or dropped, never both answered and passed on, which of these depends on the frame alone, and an answer never fails for an unknown MAC. |
| TunRelay.PayloadCrossesUnchanged | pelagos-vz/src/tun_relay.rs:682-734 | A packet passed to the host and sent back returns with its type and payload unchanged. |
| TunRelay.OneAlias | pelagos-vz/src/tun_relay.rs:600-627 | Over every run at most one alias is granted; it is the recorded address and lies inside the advertised prefix. |
| TunRelay.AliasIsFirstClaim | pelagos-vz/src/tun_relay.rs:600-627 | In every run the alias is the source of the first packet passed on from an address in the prefix that the helper would grant, and there is none exactly if there is no such packet. |
| TunRelay.AliasStays | pelagos-vz/src/tun_relay.rs:600-603 | Once recorded, the address stays for the rest of the run. |
| TunRelay.AnswersAreAccepted | pelagos-vz/src/tun_relay.rs:519-591 | Whatever is answered is what a receiver accepts: ARP replies name gateway and asker, the router's advertisement is valid, and the neighbour's is if and only if the solicitation came neither from a multicast nor from the unspecified address. |
| TunRelay.DuplicateProbeIsUnanswered | pelagos-vz/src/tun_relay.rs:566-573 | Every relay answers the probe for a duplicate of its own address with a frame that no receiver reads; the advertisement to all nodes would have been read. |
| Shares.BuildVirtiofsShares | pelagos-mac/src/main.rs:1744-1791 | The shares are HOME followed by the volumes outside it, in order, whether or not the first volume is already the home spec. |
| Shares.SpecRoundTrip | pelagos-mac/src/daemon.rs:928-935 | A volume read from a spec and written out again is read as the same volume, with the same host part. |
| Shares.DaemonSubprocessArgs | pelagos-mac/src/daemon.rs:928-935 | For each share, in order, one --volume flag followed by the share's spec. |
| MountCheck.DaemonRebuildsList | pelagos-mac/src/main.rs:1634-1644 | The daemon started with a process's own shares has a list that this process passes if and only if the volumes directory lies under HOME; then it is the same to the letter. |
| MountCheck.DataElsewhereFails | pelagos-mac/src/main.rs:1709-1716 | With the data directory elsewhere the command that started the daemon does not pass its check. |
| MountCheck.PassesExactly | pelagos-mac/src/daemon.rs:288-298 | In every environment a later process passes the mount check if and only if its volumes outside HOME say, in the same order, what the daemon's list asks; host paths compare by components. |
| MountCheck.SameButForSpelling | pelagos-mac/src/daemon.rs:183-193 | Two shares count as the same exactly if nothing but the spelling of the host path differs. |
| MountCheck.CheckUnderHome | pelagos-mac/src/daemon.rs:288-298 | With the volumes directory under HOME, what is asked is the volumes outside HOME of the process that started the daemon. |
| MountCheck.CheckElsewhere | pelagos-mac/src/daemon.rs:288-298 | With the directory elsewhere a later process must also be given the volumes share itself, first; the same command line never passes. |
| MountCheck.DaemonReads | pelagos-mac/src/main.rs:1634-1644 | The list that the daemon builds from its arguments, in every environment. |
| MountCheck.TrailingSlashPasses | pelagos-mac/src/daemon.rs:183-193 | A path written with and without a slash at the end passes, although the lists differ as text. |
| Paths.TrailingSlash | pelagos-mac/src/daemon.rs:183-186 | A slash at the end does not change a path's components. |
| Paths.EmptySteps | pelagos-mac/src/daemon.rs:183-186 | Nor does a repeated slash, or a dot between slashes. |
| Paths.UpIsKept | pelagos-mac/src/daemon.rs:183-186 | Two dots are a component like any other; nothing is resolved. |
| Paths.RootedNamesDiffer | pelagos-mac/src/daemon.rs:183-186 | Different names under the root are different paths. |
| SharePaths.EveryVolumeIsMounted | pelagos-mac/src/main.rs:919-958 | Once a process has its share list, no volume with a container part is left without a mount. |
| SharePaths.ShareRoundTrip | pelagos-docker/src/main.rs:1002-1020 | A path with its own share comes back through the guest path, by the running daemon's list, if and only if the daemon was given that text for the share (number below ten), or the share of its first digit happens to spell it. |
| SharePaths.Share10IsLost | pelagos-docker/src/main.rs:1010-1017 | With ten volumes outside HOME the last one of an actual share list comes back as a path under the second share. |
| SharePaths.HomeRoundTrip | pelagos-docker/src/main.rs:1002-1020 | A path under HOME comes back if and only if it is HOME itself, or HOME does not end and the subpath does not start with a slash. |
| SharePaths.VolumesComeBack | pelagos-docker/src/main.rs:1002-1020 | Host path to guest path and back, for every volume of a process with at most ten numbered shares: the container path returns, and the host path with the same components, in the spelling of the first share that has them. |
| SharePaths.WhoPassesGetsItBack | pelagos-mac/src/daemon.rs:288-298 | Whatever volumes the running daemon was given: a process that passes its mount check with at most ten numbered shares gets every volume back, with its container path and the components of its host path. |
| SharePaths.TwoSpellings | pelagos-mac/src/main.rs:943-947 | Two spellings of one path on one command line: the second volume comes back in the spelling of the first. |
| SharePaths.HomeIsFirst | pelagos-mac/src/main.rs:1774-1778 | The first numbered share of a process is HOME whenever some path lies under it. |
| SharePaths.OwnShareBack | pelagos-guest/src/main.rs:1112-1124 | What the mount point of a share is translated to, for every number of shares. |
| VmConf.LoadPath | pelagos-mac/src/state.rs:76-111 | The line-by-line reading yields the configuration that the text determines; later lines win. |
| ConfText.ConfRoundTrip | pelagos-mac/src/state.rs:83-110 | Every configuration with trimmed one-line values in range is loaded from the text with one line for each of its fields; all eight keys are covered. |
| ConfText.ItemsAreRead | pelagos-mac/src/state.rs:83-110 | A text is the settings on its lines, in order; comments, blank lines and lines without an equals sign are ignored. |
| ConfText.SettingIsRead | pelagos-mac/src/state.rs:85-93 | A line sets its key to its value however it is spaced. |
| ConfText.LastDecides | pelagos-mac/src/state.rs:83-110 | Of the lines that set one key the last decides, as if the others were not there. |
| ConfText.UnreadableUnsets | pelagos-mac/src/state.rs:97-106 | A number or address that cannot be read unsets its field, and any ping mode but ssh is vsock. |
| VmConf.AppendedIsFound | pelagos-mac/src/state.rs:328-339 | An appended address is read back, with all other fields unchanged, if and only if the file did not end in an unfinished line; otherwise no address is found. |
| VmConf.IpRoundTrip | pelagos-mac/src/state.rs:337-337 | Every IPv4 address is read back from its text. |
| VmConf.IpHasOneText | pelagos-mac/src/state.rs:106-106 | A text is read as an address if and only if it is that address's own text: no leading zeros, nothing left out. |
| VmConf.LoadAppended | pelagos-mac/src/state.rs:84-107 | The appended entry is read as part of whatever line was not finished. |
| Subnets.StateDir.EnsureVmIp | pelagos-mac/src/state.rs:270-324 | A stored address is returned as it is; the default profile gets 192.168.105.2; any other gets the lowest free subnet of 106 to 254, written to its own file only; none means all are taken. |
| Subnets.StateDir.CollectTaken | pelagos-mac/src/state.rs:283-313 | Exactly the third octets of the default profile and of the other profiles. |
| Subnets.CallKeepsGood | pelagos-mac/src/state.rs:270-324 | Every call keeps subnets distinct, the start condition, and every address held; what it returns is held afterwards. |
| Subnets.EmptyIsGood | pelagos-mac/src/state.rs:270-324 | An empty state directory meets the start condition. |
| Subnets.SubnetsAreDistinct | pelagos-mac/src/state.rs:270-324 | Over every run from a directory without clashes whose unassigned files end in finished lines (or that has no subnet left), two profiles that were given addresses have different third octets. |
| Subnets.AddressIsStable | pelagos-mac/src/state.rs:271-275 | Over every such run a profile gets the same address from every later call, whatever the others do. |
| Subnets.KeptApartExactly | pelagos-mac/src/state.rs:270-339 | From a directory without clashes, all runs keep addresses apart and stable if and only if the files of the named profiles without an address end in finished lines, or no subnet is left to give. |
| Subnets.UnfinishedClashes | pelagos-mac/src/state.rs:326-339 | From any directory with an unfinished file and a free subnet, two calls that give two profiles the same address. |
| Subnets.FailsOnlyWhenFull | pelagos-mac/src/state.rs:316-319 | A call fails if and only if a named profile has no address and all of 106 to 254 are taken; then at least 149 other profiles have addresses. |
| Subnets.GuestIsNotHost | pelagos-mac/src/state.rs:61-64 | Over every run no profile is given the address that its host takes, unless that was stored before. |
| Subnets.ProfileNetworks | pelagos-mac/src/state.rs:262-269 | Over every such run the networks of two profiles share no address, and a profile has one network. |
| Networks.GuestCovers | pelagos-vz/src/tun_relay.rs:93-101 | The CIDR text made from a guest address, read as a number and a prefix length, covers exactly the addresses with its first three octets. |
| Networks.ShorterIsLarger | pelagos-pfctl/src/main.rs:537-539 | A network with a shorter prefix covers what one with a longer prefix covers. |
| Networks.WidestAndNarrowest | pelagos-pfctl/src/main.rs:537-539 | A prefix of 32 bits covers one address, and one of none covers all. |
| Networks.HostIsFirst | pelagos-vz/src/tun_relay.rs:93-101 | The host's end is the first address of the guest's network, and differs from the guest's unless the guest was given that address. |
| Networks.NetworksDisjoint | pelagos-vz/src/tun_relay.rs:93-101 | Guests with different third octets have networks without a common address. |
| PfHelper.DaemonState.ComposeRules | pelagos-pfctl/src/main.rs:528-577 | The rules written are a rendering of the state in some order of the relays. |
| PfHelper.DaemonState.ReloadNatAnchor | pelagos-pfctl/src/main.rs:579-591 | With pfctl succeeding the kernel holds such a rendering, otherwise it keeps what it had; it reports a failure exactly when pfctl failed with something to load. |
| PfHelper.DaemonState.HandleSetupUtun | pelagos-pfctl/src/main.rs:286-375 | The relay is recorded exactly when both names are safe and the commands before the packet filter succeed; each forwarding flag is on once its command succeeded, and success is reported when all did. |
| PfHelper.DaemonState.HandleTeardownUtun | pelagos-pfctl/src/main.rs:377-412 | The relay and its aliases go; with the last one, and only then, the redirections, the anchor and both forwarding flags go too. |
| PfHelper.DaemonState.HandleAddRdr | pelagos-pfctl/src/main.rs:488-509 | The rule list changes as a map update, no key is listed twice, and nothing but rules and anchor changes. |
| PfHelper.DaemonState.HandleRemoveRdr | pelagos-pfctl/src/main.rs:511-516 | The rule list changes as a map removal, and nothing but rules and anchor changes. |
| PfHelper.DaemonState.HandleAssignUtunAlias | pelagos-pfctl/src/main.rs:414-433 | An alias is recorded, and success reported, exactly for a safe name, a valid address and a route that was added. |
| PfHelper.DaemonState.Run | pelagos-pfctl/src/main.rs:246-275 | Over every run of requests the state refines maps in which the last writer of a protocol and port wins; with pfctl succeeding the kernel is in step, and with sysctl succeeding packets are forwarded exactly while a relay is active. |
| PfHistory.RedirectionsSince | pelagos-pfctl/src/main.rs:488-516 | In every run a redirection is the one last added for its protocol and port, if that was not removed since and the last relay was not torn down since. |
| PfHistory.OutcomeSince | pelagos-pfctl/src/main.rs:82-93 | What such a history leaves is what was put and neither replaced nor cleared since. |
| PfHistory.RelaysSince | pelagos-pfctl/src/main.rs:286-390 | In every run a relay is active with its last successful set-up, if it was not torn down since. |
| PfHistory.AliasesSince | pelagos-pfctl/src/main.rs:392-433 | In every run an alias is recorded if and only if it was granted and its interface was not torn down since. |
| PfHistory.ConnectionsFollowRequests | pelagos-pfctl/src/main.rs:488-577 | From the requests to the kernel: a connection to 127.0.0.1 on loopback goes where the last request about its protocol and port says. |
| PfHistory.UnsafeIsRefused | pelagos-pfctl/src/main.rs:1018-1022 | A set-up with an empty name, or one with a character that could end a word of a rule, changes nothing. |
| PfHelper.AnchorSections | pelagos-pfctl/src/main.rs:528-577 | All translation rules come before all filter rules, with one NAT and one pass rule for every active relay. |
| PfHelper.AnchorFollowsMap | pelagos-pfctl/src/main.rs:542-569 | In a loaded anchor the first matching redirection is what the map says for connections to 127.0.0.1 on loopback and for all on one active relay's egress interface, and there is none for any other. |
| PfHelper.RedirectAlikeExactly | pelagos-pfctl/src/main.rs:542-569 | All loaded anchors of a state redirect every connection alike if and only if all active relays have one egress interface, or there is nothing to redirect. |
| PfHelper.TranslatedExactly | pelagos-pfctl/src/main.rs:531-540 | In every loaded anchor a packet is translated if and only if an active relay on its interface has a network that covers the source. |
| PfHelper.PassedExactly | pelagos-pfctl/src/main.rs:572-577 | In every loaded anchor packets pass quickly exactly inside the network of an active relay. |
| PfHelper.SameFirstExactly | pelagos-pfctl/src/main.rs:531-540 | All loaded anchors of a state give the same first NAT rule for every packet if and only if relays with different networks on one interface share no address. |
| PfHelper.CoveredOnceExactly | pelagos-pfctl/src/main.rs:531-540 | With networks that allocation handed out, no two NAT rules of a loaded anchor cover one source if and only if no profile has two active relays. |
| PfHelper.EachProfileItsOwnRule | pelagos-pfctl/src/main.rs:308-312 | From allocation to the kernel: for every run of allocations and every run of helper requests with their networks, each packet meets its own relay's rule first in every order, and networks that share an address are one profile's. |
| Ports.PortState.HandleDaemonCmd | pelagos-mac/src/daemon.rs:662-745 | Each command changes the registry as specified; Ok to a registration means the port is live with that target afterwards, an error names the target it keeps. |
| Ports.PortState.WatchContainer | pelagos-mac/src/daemon.rs:847-887 | Snapshots replace, starts add and exits remove a container's ports; an exit drops them from the active forwards only. |
| Ports.SpecIsRead | pelagos-mac/src/daemon.rs:160-177 | For all numbers, a written "host:container" or single port is read as these ports if they are in range, and as nothing otherwise. |
| Text.ZerosAreRead | pelagos-mac/src/daemon.rs:163-172 | Leading zeros do not change the number that is read. |
| Ports.ExitDrops | pelagos-mac/src/daemon.rs:870-886 | The exit of a container gives up exactly the host ports of its forwards, leaves all other ports and their targets alone, and forgets the container. |
| Ports.LastForwardWins | pelagos-mac/src/daemon.rs:423-431 | Of the ports given at start each goes where the last forward for it says. |
| Ports.PortState.constructor | pelagos-mac/src/daemon.rs:423-431 | Ports given at start are active and proxied, the last one of a port winning. |
| Ports.RunDaemon | pelagos-mac/src/daemon.rs:662-885 | Over every run each active port has a proxy with the same target, and each port is where its own life has led it. |
| Ports.RegistryIsLives | pelagos-mac/src/daemon.rs:662-885 | The shared maps refine the lives of single ports, each told from the history of commands and events alone. |
| Ports.LingersSince | pelagos-mac/src/daemon.rs:724-738 | A proxy runs without an active entry if and only if the port was given up while live by the compose or exit path and has not been registered since. |
| Ports.NeverRetargeted | pelagos-mac/src/daemon.rs:670-702 | As long as a port stays live its target stays the same. |
| Ports.UnregisterLeavesLingering | pelagos-mac/src/daemon.rs:703-710 | Unregistering does not stop a proxy that lingers. |
| Ports.TrackedAsInHistory | pelagos-mac/src/daemon.rs:711-740 | A project's and a container's ports are those that the history of commands and events gives. |
| PortListeners.RegistryIsRun | pelagos-mac/src/daemon.rs:421-745 | However threads and clients interleave, the registry is where the commands and events alone lead it. |
| PortListeners.OnePerPort | pelagos-mac/src/daemon.rs:66-79 | In every run at most one thread holds a port. |
| PortListeners.RelaysRegistered | pelagos-mac/src/daemon.rs:86-100 | A connection is only ever relayed by the thread behind the port's handle, to the target that the history gives; a closed port relays nothing. |
| PortListeners.ListensExactly | pelagos-mac/src/daemon.rs:72-78 | A registered port is listened to if and only if its thread's one bind went well; on a system that refuses only ports in use it fails if and only if a thread that was told to stop still held the port. |
| PortListeners.DeafStays | pelagos-mac/src/daemon.rs:670-702 | A live port whose bind failed stays unheard for as long as it is live, whatever else is registered. |
| PortListeners.RebindRace | pelagos-mac/src/daemon.rs:58-79 | Registering a lingering port again leads, by two orders of the same steps, to the same registry with and without a listener. |
| PortListeners.LiveButDeaf | pelagos-mac/src/daemon.rs:724-738 | A compose project that goes down and comes up again in a run from the start that leaves its port registered and nobody listening. |

## Left out

- ExecSessionSafety.OutputIsFaithful: no channel breaks in the middle of a session; a failed write or a lost connection would end the streams early.
- ExecSessionEnds.SessionsEnd: the child's output is a fixed text that ends; a child that waits for input, or for ever, is not covered.
- ExecSession.Step: a write that has begun but does not fit stands at the end of its channel; how the kernel cuts it is free.
- Exec with a TTY outside `pelagos run`, terminal modes and window sizes: opaque system calls around the same frames.
- Console.ConsoleRelayLoop: what is written for each client; how much of it a client takes before it goes away is free, and its session is one sequence of bytes.
- EventStream.StepInv: reading the state directory yields some list at one moment; heartbeats carry no container and are not part of the stream; a client's socket takes each event at once.
- Checksum.RelayChecksum: the sum wraps as in a release build; a debug build would stop instead.
- NdpFrames.BuildProbeNs: the frame only; writing it to the network and finding router and MAC are foreign commands.
- TunRelay.RelayState.RunRelay: the traffic is what is handed to the system; whether it arrives is not modelled. The timer may fire at any moment.
- MountCheck.PassesExactly: the daemon runs in the same environment (HOME, data directory, files) as the process that asks.
- SharePaths.OwnShareBack: the guest path of `run`; the exec path does not trim a subpath's leading slashes.
- VmConf.LoadPath: a file that exists can be read; a read error is passed on before any parsing.
- Subnets.StateDir.EnsureVmIp: one call is atomic; the program takes no lock between processes.
- PfHelper.DaemonState.ReloadNatAnchor: the anchor is a list of rules, not their text.
- PfHelper.DaemonState.HandleSetupUtun: stale routes, the anchor address and the isolation table are commands whose results are ignored.
- PfHelper.DaemonState.HandleAssignUtunAlias: the frames sent afterwards are in `NdpFrames.dfy`; parsing of the IPv6 address is a parameter.
- Ports.PortState.HandleDaemonCmd: a proxy is its target here; its thread is in `PortListeners.dfy`.
- PortListeners.RelaysRegistered: what a relayed connection carries, and how long it lasts, is opaque.
- JSON encoding, command line parsing, logging and table output: thin mappings.
- The virtual machine framework, process spawning, namespaces and descriptor passing: foreign code.
- `substitute_build_args` and most of the docker front end: easier than the rest.
- Timeouts, reconnection and the watcher's backoff: they only delay steps that may happen at any time.
