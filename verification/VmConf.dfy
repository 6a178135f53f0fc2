/** A profile's `vm.conf`: how it is read, and what appending an address does to it. */
module VmConf {
  import opened Text
  import opened Wrappers

  datatype Ip = Ip(a: nat, b: nat, c: nat, d: nat)

  predicate IsIp(ip: Ip) {
    ip.a < 256 && ip.b < 256 && ip.c < 256 && ip.d < 256
  }

  datatype PingMode = Vsock | Ssh

  datatype Config = Config(disk: Option<string>, kernel: Option<string>, initrd: Option<string>,
                           memory: Option<nat>, cpus: Option<nat>, pingMode: PingMode,
                           cmdline: Option<string>, vmIp: Option<Ip>)

  const EMPTY := Config(None, None, None, None, None, Vsock, None, None)

  // ---- Values ----------------------------------------------------------------------------

  /** White space as the standard library of the implementation language has it. */
  predicate Space(c: char) {
    var n := c as int;
    || 0x09 <= n <= 0x0D || n == 0x20 || n == 0x85 || n == 0xA0 || n == 0x1680
    || 0x2000 <= n <= 0x200A || n == 0x2028 || n == 0x2029 || n == 0x202F || n == 0x205F || n == 0x3000
  }

  function TrimLeft(s: string): string {
    if s != "" && Space(s[0]) then TrimLeft(s[1..]) else s
  }

  function TrimRight(s: string): string {
    if s != "" && Space(s[|s| - 1]) then TrimRight(s[..|s| - 1]) else s
  }

  function Trim(s: string): string {
    TrimRight(TrimLeft(s))
  }

  const USIZE_MAX: nat := 0xFFFF_FFFF_FFFF_FFFF

  function ParseUsize(s: string): Option<nat> {
    ParseUnsigned(s, USIZE_MAX)
  }

  /** One to three digits without a leading zero. */
  function ParseOctet(s: string): (r: Option<nat>)
    ensures r.Some? ==> AllDigits(s) && r.value < 256
  {
    if 1 <= |s| <= 3 && AllDigits(s) && (|s| > 1 ==> s[0] != '0') && Value(s) < 256 then Some(Value(s)) else None
  }

  function ParseIp(s: string): (r: Option<Ip>)
    ensures r.Some? ==> IsIp(r.value)
  {
    if '.' !in s then None
    else
      var (s0, r0) := (Before(s, '.'), After(s, '.'));
      if '.' !in r0 then None
      else
        var (s1, r1) := (Before(r0, '.'), After(r0, '.'));
        if '.' !in r1 then None
        else
          var (s2, s3) := (Before(r1, '.'), After(r1, '.'));
          match (ParseOctet(s0), ParseOctet(s1), ParseOctet(s2), ParseOctet(s3))
          case (Some(a), Some(b), Some(c), Some(d)) => Some(Ip(a, b, c, d))
          case _ => None
  }

  function IpText(ip: Ip): string {
    Digits(ip.a) + ['.'] + (Digits(ip.b) + ['.'] + (Digits(ip.c) + ['.'] + Digits(ip.d)))
  }

  lemma NoDot(n: nat)
    ensures '.' !in Digits(n)
  {
  }

  lemma OctetRoundTrip(n: nat)
    requires n < 256
    ensures ParseOctet(Digits(n)) == Some(n)
  {
    DigitsValue(n);
  }

  lemma IpRoundTrip(ip: Ip)
    requires IsIp(ip)
    ensures ParseIp(IpText(ip)) == Some(ip)
  {
    OctetRoundTrip(ip.a);
    OctetRoundTrip(ip.b);
    OctetRoundTrip(ip.c);
    OctetRoundTrip(ip.d);
    NoDot(ip.a);
    NoDot(ip.b);
    NoDot(ip.c);
    hide Digits, ParseOctet, Before;
    var r1 := Digits(ip.c) + ['.'] + Digits(ip.d);
    var r0 := Digits(ip.b) + ['.'] + r1;
    Splits(Digits(ip.a), '.', r0);
    Splits(Digits(ip.b), '.', r1);
    Splits(Digits(ip.c), '.', Digits(ip.d));
  }

  lemma OctetIsCanonical(s: string)
    requires ParseOctet(s).Some?
    ensures s == Digits(ParseOctet(s).value)
  {
    DigitsOfValue(s);
    hide Digits, Value;
  }

  /** An address has one text: no leading zeros, nothing left out. */
  lemma IpHasOneText(s: string, ip: Ip)
    ensures ParseIp(s) == Some(ip) <==> IsIp(ip) && s == IpText(ip)
  {
    if IsIp(ip) && s == IpText(ip) {
      IpRoundTrip(ip);
    }
    if ParseIp(s) == Some(ip) {
      var s0, r0 := Before(s, '.'), After(s, '.');
      var s1, r1 := Before(r0, '.'), After(r0, '.');
      var s2, s3 := Before(r1, '.'), After(r1, '.');
      Unsplits(s, '.');
      Unsplits(r0, '.');
      Unsplits(r1, '.');
      OctetIsCanonical(s0);
      OctetIsCanonical(s1);
      OctetIsCanonical(s2);
      OctetIsCanonical(s3);
      hide Before, After, ParseOctet, Digits;
      assert s == s0 + ['.'] + (s1 + ['.'] + (s2 + ['.'] + s3));
    }
  }

  predicate IpChars(s: string) {
    forall c <- s :: IsDigit(c) || c == '.'
  }

  lemma DottedChars(s: string)
    requires '.' in s && AllDigits(Before(s, '.')) && IpChars(After(s, '.'))
    ensures IpChars(s)
  {
    Unsplits(s, '.');
    var a, b := Before(s, '.'), After(s, '.');
    hide Before, After;
    assert forall c <- a + ['.'] + b :: c in a || c == '.' || c in b;
  }

  /** Anything but digits and dots is no address. */
  lemma IpCharacters(s: string)
    requires ParseIp(s).Some?
    ensures IpChars(s)
  {
    var r0 := After(s, '.');
    var r1 := After(r0, '.');
    hide Before, After;
    DottedChars(r1);
    DottedChars(r0);
    DottedChars(s);
  }

  // ---- Lines -----------------------------------------------------------------------------

  function Set(cfg: Config, key: string, val: string): Config {
    if key == "disk" then cfg.(disk := Some(val))
    else if key == "kernel" then cfg.(kernel := Some(val))
    else if key == "initrd" then cfg.(initrd := Some(val))
    else if key == "memory" then cfg.(memory := ParseUsize(val))
    else if key == "cpus" then cfg.(cpus := ParseUsize(val))
    else if key == "ping_mode" then cfg.(pingMode := if val == "ssh" then Ssh else Vsock)
    else if key == "cmdline" then cfg.(cmdline := Some(val))
    else if key == "vm_ip" then cfg.(vmIp := ParseIp(val))
    else cfg
  }

  /** What one trimmed line does. */
  function ReadTrimmed(cfg: Config, line: string): Config {
    if line == "" || line[0] == '#' || '=' !in line then cfg
    else Set(cfg, Trim(Before(line, '=')), Trim(After(line, '=')))
  }

  function ReadLine(cfg: Config, line: string): Config {
    ReadTrimmed(cfg, Trim(line))
  }

  /** The carriage return of a line ending goes with the white space. */
  function Lines(text: string): seq<string>
    decreases |text|
  {
    if text == "" then []
    else if '\n' !in text then [text]
    else [Before(text, '\n')] + Lines(After(text, '\n'))
  }

  function ReadLines(cfg: Config, lines: seq<string>): Config
    decreases |lines|
  {
    if lines == [] then cfg else ReadLines(ReadLine(cfg, lines[0]), lines[1..])
  }

  function Load(text: string): Config {
    ReadLines(EMPTY, Lines(text))
  }

  /** Later lines win. */
  method LoadPath(text: string) returns (cfg: Config)
    ensures cfg == Load(text)
  {
    hide Set, Trim, Before, After, Lines;
    cfg := EMPTY;
    var lines := Lines(text);
    assert lines[0..] == lines;
    for i := 0 to |lines|
      invariant ReadLines(cfg, lines[i..]) == Load(text)
    {
      LineByLine(cfg, lines, i);
      var line := Trim(lines[i]);
      if line == "" || line[0] == '#' || '=' !in line {
        continue;
      }
      cfg := Set(cfg, Trim(Before(line, '=')), Trim(After(line, '=')));
    }
  }

  lemma LineByLine(cfg: Config, lines: seq<string>, i: nat)
    requires i < |lines|
    ensures ReadLines(cfg, lines[i..]) == ReadLines(ReadLine(cfg, lines[i]), lines[i + 1..])
  {
    assert lines[i..][1..] == lines[i + 1..];
  }

  // ---- Appending an address --------------------------------------------------------------

  function Entry(ip: Ip): string {
    "vm_ip = " + IpText(ip)
  }

  function Appended(text: string, ip: Ip): string {
    text + Entry(ip) + "\n"
  }

  /** The last line, when it has no newline yet. */
  function Tail(text: string): (t: string)
    ensures |t| <= |text| && t == text[|text| - |t|..] && '\n' !in t
    ensures |t| < |text| ==> text[|text| - |t| - 1] == '\n'
  {
    if '\n' !in text then text else Tail(After(text, '\n'))
  }

  function Head(text: string): string {
    text[..|text| - |Tail(text)|]
  }

  predicate Blank(s: string) {
    forall c <- s :: Space(c)
  }

  lemma {:induction false} LoadSplit(cfg: Config, head: string, rest: string)
    requires head == "" || head[|head| - 1] == '\n'
    ensures ReadLines(cfg, Lines(head + rest)) == ReadLines(ReadLines(cfg, Lines(head)), Lines(rest))
    decreases |head|
  {
    hide ReadLine;
    if head == "" {
      assert head + rest == rest;
    } else {
      var a, b := Before(head, '\n'), After(head, '\n');
      assert head == a + ['\n'] + b;
      assert head + rest == a + ['\n'] + (b + rest);
      Splits(a, '\n', b + rest);
      LoadSplit(ReadLine(cfg, a), b, rest);
      assert Lines(head + rest) == [a] + Lines(b + rest);
      assert Lines(head) == [a] + Lines(b);
    }
  }

  lemma OneLine(cfg: Config, line: string)
    requires '\n' !in line
    ensures ReadLines(cfg, Lines(line)) == ReadLine(cfg, line)
    ensures ReadLines(cfg, Lines(line + "\n")) == ReadLine(cfg, line)
  {
    assert line + "\n" == line + ['\n'] + "";
    Splits(line, '\n', "");
    assert Lines(line + "\n") == [line] + Lines("");
    assert [line][1..] == [];
    if line == "" {
      assert Trim("") == "";
    }
  }

  lemma EntryNoNewline(ip: Ip)
    ensures '\n' !in Entry(ip) && Entry(ip) != "" && Entry(ip)[0] == 'v' && IsDigit(Entry(ip)[|Entry(ip)| - 1])
  {
    var t := IpText(ip);
    assert Entry(ip)[|Entry(ip)| - 1] == t[|t| - 1] == Digits(ip.d)[|Digits(ip.d)| - 1];
    assert '\n' !in "vm_ip = ";
    assert forall c <- t ::
      c == '.' || c in Digits(ip.a) || c in Digits(ip.b) || c in Digits(ip.c) || c in Digits(ip.d);
  }

  /** The entry is read as part of whatever line was not finished. */
  lemma LoadAppended(text: string, ip: Ip)
    ensures var cfg := Load(Head(text));
            && Load(text) == ReadLine(cfg, Tail(text))
            && Load(Appended(text, ip)) == ReadLine(cfg, Tail(text) + Entry(ip))
  {
    hide ReadLine, Lines, Tail, Entry, ReadLines;
    var head, tail := Head(text), Tail(text);
    assert text == head + tail;
    assert Appended(text, ip) == head + (tail + Entry(ip) + "\n");
    EntryNoNewline(ip);
    LoadSplit(EMPTY, head, tail);
    LoadSplit(EMPTY, head, tail + Entry(ip) + "\n");
    OneLine(Load(head), tail);
    OneLine(Load(head), tail + Entry(ip));
  }

  lemma {:induction false} TrimLeftBefore(t: string, e: string)
    requires e != "" && !Space(e[0])
    ensures Blank(t) ==> TrimLeft(t) == "" && TrimLeft(t + e) == e
    ensures !Blank(t) ==> TrimLeft(t) != "" && !Space(TrimLeft(t)[0]) && TrimLeft(t + e) == TrimLeft(t) + e
  {
    hide Space;
    if t == "" {
      assert t + e == e;
    } else {
      BlankHead(t);
      hide Blank;
      if Space(t[0]) {
        assert (t + e)[1..] == t[1..] + e;
        TrimLeftBefore(t[1..], e);
      }
    }
  }

  lemma BlankHead(t: string)
    requires t != ""
    ensures Blank(t) <==> Space(t[0]) && Blank(t[1..])
  {
    hide Space;
    assert t == [t[0]] + t[1..];
  }

  /** White space in front goes; whatever else is there stays. */
  lemma TrimBefore(t: string, e: string)
    requires e != "" && !Space(e[0]) && !Space(e[|e| - 1])
    ensures Trim(t + e) == TrimLeft(t) + e
    ensures Trim(t + e)[|TrimLeft(t)|] == e[0]
    ensures Blank(t) <==> TrimLeft(t) == ""
  {
    hide Space, TrimLeft, Blank;
    TrimLeftBefore(t, e);
    var s := TrimLeft(t) + e;
    assert s[|s| - 1] == e[|e| - 1];
    assert TrimLeft(t + e) == s by {
      assert "" + e == e;
    }
  }

  lemma {:induction false} TrimRightKeeps(u: string)
    requires u != "" && !Space(u[0])
    ensures var w := TrimRight(u);
            w <= u && w != "" && w[0] == u[0] && ('=' in u ==> '=' in w)
  {
    if Space(u[|u| - 1]) {
      assert u == u[..|u| - 1] + [u[|u| - 1]];
      TrimRightKeeps(u[..|u| - 1]);
    }
  }

  lemma BlankLine(cfg: Config, t: string)
    requires Blank(t)
    ensures ReadLine(cfg, t) == cfg
  {
    TrimBefore(t, "v");
  }

  /** What a line does to the address. */
  lemma IpOfLine(cfg: Config, line: string)
    ensures var cfg' := ReadTrimmed(cfg, line);
            cfg'.vmIp == if line != "" && line[0] != '#' && '=' in line && Trim(Before(line, '=')) == "vm_ip"
                         then ParseIp(Trim(After(line, '='))) else cfg.vmIp
    ensures line != "" && line[0] != '#' && '=' in line && Trim(Before(line, '=')) == "vm_ip" ==>
              ReadTrimmed(cfg, line) == cfg.(vmIp := ParseIp(Trim(After(line, '='))))
  {
    hide Trim, Before, After, ParseIp, ParseUsize;
  }

  lemma KeyOfEntry()
    ensures Trim("vm_ip ") == "vm_ip"
  {
    var k := "vm_ip ";
    assert TrimLeft(k) == k;
    assert k[..5] == "vm_ip";
    assert TrimRight(k) == TrimRight("vm_ip");
  }

  lemma EntryParts(ip: Ip)
    ensures '=' in Entry(ip) && Before(Entry(ip), '=') == "vm_ip " && After(Entry(ip), '=') == " " + IpText(ip)
  {
    assert Entry(ip) == "vm_ip " + ['='] + (" " + IpText(ip));
    Splits("vm_ip ", '=', " " + IpText(ip));
  }

  lemma IpTextTrims(ip: Ip)
    ensures Trim(" " + IpText(ip)) == IpText(ip)
  {
    var t := IpText(ip);
    assert t[0] == Digits(ip.a)[0] && t[|t| - 1] == Digits(ip.d)[|Digits(ip.d)| - 1];
    assert Digits(ip.a)[0] in Digits(ip.a) && Digits(ip.d)[|Digits(ip.d)| - 1] in Digits(ip.d);
    assert IsDigit(t[0]) && IsDigit(t[|t| - 1]);
    hide IpText;
    TrimBefore(" ", t);
    assert Blank(" ");
    assert "" + t == t;
  }

  lemma EntryIsRead(cfg: Config, ip: Ip)
    requires IsIp(ip)
    ensures ReadTrimmed(cfg, Entry(ip)) == cfg.(vmIp := Some(ip))
  {
    hide ParseIp, IpText, Before, After, Trim, ReadTrimmed, Entry;
    EntryNoNewline(ip);
    EntryParts(ip);
    KeyOfEntry();
    IpTextTrims(ip);
    IpRoundTrip(ip);
    IpOfLine(cfg, Entry(ip));
  }

  lemma BeforeFound(a: string, b: string)
    requires '=' in a
    ensures '=' in a + b && Before(a + b, '=') == Before(a, '=') && After(a + b, '=') == After(a, '=') + b
  {
    var x, y := Before(a, '='), After(a, '=');
    Unsplits(a, '=');
    hide Before, After;
    assert a + b == x + ['='] + (y + b);
    Splits(x, '=', y + b);
  }

  /** A line that already says something, and ends in no address, swallows the entry. */
  lemma SwallowedEntry(cfg: Config, t: string, ip: Ip)
    requires !Blank(t) && ReadLine(cfg, t).vmIp.None?
    ensures ReadLine(cfg, t + Entry(ip)).vmIp.None?
  {
    hide ParseIp, IpText, Before, After, ReadTrimmed, Entry, Space, TrimLeft, TrimRight, Trim;
    var e, u, w := Entry(ip), TrimLeft(t), Trim(t);
    EntryEnds(ip);
    TrimBefore(t, e);
    IpOfLine(cfg, w);
    IpOfLine(cfg, u + e);
    TrimmedParts(t);
    if '=' in u {
      BeforeFound(w, u[|w|..]);
      BeforeFound(u, e);
      NotAnIp(After(u, '='), ip);
    } else {
      NewKey(u, ip);
    }
  }

  lemma TrimmedParts(t: string)
    requires !Blank(t)
    ensures var u, w := TrimLeft(t), Trim(t);
            && u != "" && !Space(u[0]) && w <= u && u == w + u[|w|..] && w != "" && w[0] == u[0]
            && ('=' in u <==> '=' in w)
  {
    TrimLeftBefore(t, "v");
    TrimRightKeeps(TrimLeft(t));
  }

  lemma EntryEnds(ip: Ip)
    ensures Entry(ip) != "" && !Space(Entry(ip)[0]) && !Space(Entry(ip)[|Entry(ip)| - 1])
  {
    EntryNoNewline(ip);
  }

  lemma NotAnIp(x: string, ip: Ip)
    ensures ParseIp(Trim(x + Entry(ip))).None?
  {
    EntryNoNewline(ip);
    TrimBefore(x, Entry(ip));
    var v := Trim(x + Entry(ip));
    assert 'v' in v;
    hide Trim, TrimLeft, ParseIp, Entry;
    if ParseIp(v).Some? {
      IpCharacters(v);
    }
  }

  lemma KeyAfter(u: string)
    requires u != "" && !Space(u[0])
    ensures Trim(u + "vm_ip ") == u + "vm_ip"
  {
    var k, k' := u + "vm_ip ", u + "vm_ip";
    assert TrimLeft(k) == k;
    assert Space(k[|k| - 1]) && !Space(k'[|k'| - 1]);
    assert k[..|k| - 1] == k';
    hide Space;
    assert TrimRight(k') == k';
  }

  lemma NewKey(u: string, ip: Ip)
    requires u != "" && !Space(u[0]) && '=' !in u
    ensures '=' in u + Entry(ip) && Trim(Before(u + Entry(ip), '=')) != "vm_ip"
  {
    hide Space, Trim, IpText;
    var rest := " " + IpText(ip);
    assert u + Entry(ip) == (u + "vm_ip ") + ['='] + rest;
    Splits(u + "vm_ip ", '=', rest);
    KeyAfter(u);
    assert |u + "vm_ip"| > |"vm_ip"|;
  }

  /** An appended address is found again, with everything else unchanged, exactly when the file
      did not end in an unfinished line. */
  lemma AppendedIsFound(text: string, ip: Ip)
    requires IsIp(ip) && Load(text).vmIp.None?
    ensures Load(Appended(text, ip)).vmIp == Some(ip) <==> Blank(Tail(text))
    ensures Blank(Tail(text)) ==> Load(Appended(text, ip)) == Load(text).(vmIp := Some(ip))
    ensures !Blank(Tail(text)) ==> Load(Appended(text, ip)).vmIp.None?
  {
    hide Load, ReadTrimmed, Tail, Entry, Trim, TrimLeft, TrimRight, Appended, Blank;
    var cfg, tail := Load(Head(text)), Tail(text);
    LoadAppended(text, ip);
    if Blank(tail) {
      BlankLine(cfg, tail);
      BlankThenEntry(tail, ip);
      EntryIsRead(cfg, ip);
    } else {
      SwallowedEntry(cfg, tail, ip);
    }
  }

  lemma BlankThenEntry(t: string, ip: Ip)
    requires Blank(t)
    ensures Trim(t + Entry(ip)) == Entry(ip)
  {
    EntryNoNewline(ip);
    TrimBefore(t, Entry(ip));
    assert "" + Entry(ip) == Entry(ip);
  }
}
