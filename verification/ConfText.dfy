/** What a `vm.conf` says: the lines that count, which of them wins, and a text for every
    configuration. */
module ConfText {
  import opened Text
  import opened VmConf
  import opened Wrappers

  // ---- One line --------------------------------------------------------------------------

  predicate Trimmed(s: string) {
    s == "" || (!Space(s[0]) && !Space(s[|s| - 1]))
  }

  predicate KeyLike(key: string) {
    key != "" && Trimmed(key) && key[0] != '#' && '=' !in key && '\n' !in key
  }

  lemma {:induction false} TrimRightAround(s: string, b: string)
    requires s != "" && !Space(s[|s| - 1]) && Blank(b)
    ensures TrimRight(s + b) == s
  {
    hide Space;
    if b == "" {
      assert s + b == s;
    } else {
      var n := |b| - 1;
      assert b[n] in b && forall c <- b[..n] :: c in b;
      assert (s + b)[|s + b| - 1] == b[n] && (s + b)[..|s + b| - 1] == s + b[..n];
      TrimRightAround(s, b[..n]);
    }
  }

  lemma {:induction false} BlankTrims(b: string)
    requires Blank(b)
    ensures TrimLeft(b) == "" && Trim(b) == ""
  {
    TrimLeftBefore(b, "v");
  }

  /** White space on both sides goes. */
  lemma TrimAround(a: string, s: string, b: string)
    requires Blank(a) && Blank(b) && Trimmed(s)
    ensures Trim(a + s + b) == s
  {
    hide Space, TrimLeft, TrimRight;
    if s == "" {
      assert a + s + b == a + b && Blank(a + b);
      BlankTrims(a + b);
    } else {
      assert a + s + b == a + (s + b);
      TrimLeftBefore(a, s + b);
      TrimRightAround(s, b);
    }
  }

  datatype Pads = Pads(a: string, b: string, c: string, d: string)

  predicate BlankPads(p: Pads) {
    Blank(p.a) && Blank(p.b) && Blank(p.c) && Blank(p.d)
  }

  function SettingLine(key: string, val: string, p: Pads): string {
    p.a + key + p.b + ['='] + p.c + val + p.d
  }

  /** The line without the white space around it. */
  function Core(key: string, val: string, p: Pads): string {
    key + p.b + ['='] + if val == "" then "" else p.c + val
  }

  lemma CoreOfLine(key: string, val: string, p: Pads)
    requires KeyLike(key) && Trimmed(val) && BlankPads(p)
    ensures Trim(SettingLine(key, val, p)) == Core(key, val, p)
  {
    var core := Core(key, val, p);
    assert core[0] == key[0];
    assert !Space('=');
    hide Space;
    assert core[|core| - 1] == if val == "" then '=' else val[|val| - 1];
    var after := if val == "" then p.c + p.d else p.d;
    assert SettingLine(key, val, p) == p.a + core + after;
    assert Blank(after);
    TrimAround(p.a, core, after);
  }

  lemma NoEquals(key: string, b: string)
    requires '=' !in key && Blank(b)
    ensures '=' !in key + b
  {
    assert !Space('=');
    hide Space;
    assert forall c <- key + b :: c in key || c in b;
  }

  lemma CoreSplits(key: string, val: string, p: Pads)
    requires '=' !in key && Blank(p.b)
    ensures var core := Core(key, val, p);
            && '=' in core && Before(core, '=') == key + p.b
            && After(core, '=') == if val == "" then "" else p.c + val
  {
    NoEquals(key, p.b);
    hide Blank;
    Splits(key + p.b, '=', if val == "" then "" else p.c + val);
  }

  lemma TrimBeside(a: string, s: string)
    requires Blank(a) && Trimmed(s)
    ensures Trim(a + s) == s && Trim(s + a) == s
  {
    hide Trim, Trimmed, Space;
    TrimAround(a, s, "");
    TrimAround("", s, a);
    assert a + s + "" == a + s && "" + s + a == s + a;
  }

  lemma CoreParts(key: string, val: string, p: Pads)
    requires KeyLike(key) && Trimmed(val) && BlankPads(p)
    ensures var core := Core(key, val, p);
            && core != "" && core[0] != '#' && '=' in core
            && Trim(Before(core, '=')) == key && Trim(After(core, '=')) == val
  {
    CoreSplits(key, val, p);
    hide Trim, Before, After, Blank, Trimmed;
    TrimBeside(p.b, key);
    if val == "" {
      NothingBlank();
      TrimBeside("", val);
    } else {
      TrimBeside(p.c, val);
    }
  }

  lemma NothingBlank()
    ensures Blank("")
  {
  }

  /** However it is spaced, `key = value` sets the key to the value. */
  lemma SettingIsRead(cfg: Config, key: string, val: string, p: Pads)
    requires KeyLike(key) && Trimmed(val) && BlankPads(p)
    ensures ReadLine(cfg, SettingLine(key, val, p)) == Set(cfg, key, val)
  {
    hide Trim, Core, SettingLine, Set, KeyLike, Trimmed;
    CoreOfLine(key, val, p);
    CoreParts(key, val, p);
  }

  /** A comment, white space, or a line without an equals sign. */
  predicate Ignored(line: string) {
    Blank(line) || '=' !in line || (TrimLeft(line) != "" && TrimLeft(line)[0] == '#')
  }

  lemma {:induction false} TrimLeftInside(s: string, x: char)
    requires x !in s
    ensures x !in TrimLeft(s)
  {
    hide Space;
    if s != "" && Space(s[0]) {
      TrimLeftInside(s[1..], x);
    }
  }

  lemma IgnoredIsIgnored(cfg: Config, line: string)
    requires Ignored(line)
    ensures ReadLine(cfg, line) == cfg
  {
    if Blank(line) {
      BlankLine(cfg, line);
    } else {
      TrimLeftBefore(line, "v");
      TrimRightKeeps(TrimLeft(line));
      if '=' !in line {
        TrimLeftInside(line, '=');
      }
      hide Set, Space, TrimLeft, TrimRight, Blank;
    }
  }

  // ---- A text ----------------------------------------------------------------------------

  datatype Item = Setting(key: string, val: string, pads: Pads) | Remark(text: string)

  function ItemLine(item: Item): string {
    match item
    case Setting(key, val, pads) => SettingLine(key, val, pads)
    case Remark(text) => text
  }

  predicate ItemOk(item: Item) {
    && '\n' !in ItemLine(item)
    && match item
       case Setting(key, val, pads) => KeyLike(key) && Trimmed(val) && BlankPads(pads)
       case Remark(text) => Ignored(text)
  }

  function TextOfItems(items: seq<Item>): string {
    if items == [] then "" else ItemLine(items[0]) + ['\n'] + TextOfItems(items[1..])
  }

  function Settled(cfg: Config, items: seq<Item>): Config
    decreases |items|
  {
    if items == [] then cfg
    else Settled(if items[0].Setting? then Set(cfg, items[0].key, items[0].val) else cfg, items[1..])
  }

  lemma {:induction false} ItemsFrom(cfg: Config, items: seq<Item>)
    requires forall item <- items :: ItemOk(item)
    ensures ReadLines(cfg, Lines(TextOfItems(items))) == Settled(cfg, items)
    decreases |items|
  {
    hide Set, ReadLine, SettingLine, KeyLike, Trimmed, BlankPads, Ignored;
    if items != [] {
      var item := items[0];
      assert ItemOk(item);
      Splits(ItemLine(item), '\n', TextOfItems(items[1..]));
      var cfg' := ReadLine(cfg, ItemLine(item));
      ItemsFrom(cfg', items[1..]);
      ItemIsRead(cfg, item);
      hide Before, After;
      var text := TextOfItems(items);
      assert Lines(text) == [ItemLine(item)] + Lines(TextOfItems(items[1..]));
    }
  }

  lemma ItemIsRead(cfg: Config, item: Item)
    requires ItemOk(item)
    ensures ReadLine(cfg, ItemLine(item)) == if item.Setting? then Set(cfg, item.key, item.val) else cfg
  {
    hide Set, ReadLine, SettingLine, KeyLike, Trimmed, BlankPads, Ignored;
    match item
    case Setting(key, val, pads) => SettingIsRead(cfg, key, val, pads);
    case Remark(text) => IgnoredIsIgnored(cfg, text);
  }

  /** A text is the settings on its lines, in order; all else is ignored. */
  lemma ItemsAreRead(items: seq<Item>)
    requires forall item <- items :: ItemOk(item)
    ensures Load(TextOfItems(items)) == Settled(EMPTY, items)
  {
    ItemsFrom(EMPTY, items);
  }

  // ---- The last line of a key decides ----------------------------------------------------

  lemma SetOver(cfg: Config, k: string, v: string, k': string, v': string)
    ensures k == k' ==> Set(Set(cfg, k, v), k', v') == Set(cfg, k', v')
    ensures k != k' ==> Set(Set(cfg, k, v), k', v') == Set(Set(cfg, k', v'), k, v)
  {
    hide ParseUsize, ParseIp;
  }

  /** The items without those that set the key. */
  function Without(items: seq<Item>, key: string): seq<Item> {
    if items == [] then []
    else (if items[0].Setting? && items[0].key == key then [] else [items[0]]) + Without(items[1..], key)
  }

  predicate Sets(items: seq<Item>, key: string) {
    exists item <- items :: item.Setting? && item.key == key
  }

  lemma {:induction false} SettledAppend(cfg: Config, a: seq<Item>, b: seq<Item>)
    ensures Settled(cfg, a + b) == Settled(Settled(cfg, a), b)
    decreases |a|
  {
    hide Set;
    if a == [] {
      assert a + b == b;
    } else {
      assert (a + b)[1..] == a[1..] + b;
      SettledAppend(if a[0].Setting? then Set(cfg, a[0].key, a[0].val) else cfg, a[1..], b);
    }
  }

  /** What is set before of the same key does not matter, and nothing else does to it. */
  lemma {:induction false} SetLater(cfg: Config, items: seq<Item>, key: string, val: string)
    ensures Set(Settled(cfg, items), key, val) == Set(Settled(cfg, Without(items, key)), key, val)
    ensures !Sets(items, key) ==> Settled(Set(cfg, key, val), items) == Set(Settled(cfg, items), key, val)
    decreases |items|
  {
    hide Set;
    if items != [] {
      var item, rest := items[0], items[1..];
      assert forall x :: x in items <==> x == item || x in rest;
      if item.Setting? {
        var next := Set(cfg, item.key, item.val);
        SetLater(next, rest, key, val);
        SetOver(cfg, item.key, item.val, key, val);
        if item.key != key {
          assert ([item] + Without(rest, key))[1..] == Without(rest, key);
        } else {
          assert [] + Without(rest, key) == Without(rest, key);
          WithoutSets(rest, key);
          SetFirst(cfg, Without(rest, key), key, item.val, val);
        }
      } else {
        SetLater(cfg, rest, key, val);
        assert ([item] + Without(rest, key))[1..] == Without(rest, key);
      }
    }
  }

  lemma {:induction false} SetFirst(cfg: Config, items: seq<Item>, key: string, v: string, val: string)
    requires !Sets(items, key)
    ensures Set(Settled(Set(cfg, key, v), items), key, val) == Set(Settled(cfg, items), key, val)
    decreases |items|
  {
    hide Set;
    if items == [] {
      SetOver(cfg, key, v, key, val);
    } else {
      var item, rest := items[0], items[1..];
      assert item in items && forall x <- rest :: x in items;
      if item.Setting? {
        SetOver(cfg, key, v, item.key, item.val);
        SetFirst(Set(cfg, item.key, item.val), rest, key, v, val);
      } else {
        SetFirst(cfg, rest, key, v, val);
      }
    }
  }

  lemma {:induction false} WithoutSets(items: seq<Item>, key: string)
    ensures !Sets(Without(items, key), key)
  {
    if items != [] {
      WithoutSets(items[1..], key);
    }
  }

  lemma {:induction false} WithoutInside(items: seq<Item>, key: string)
    ensures forall item <- Without(items, key) :: item in items
  {
    if items != [] {
      WithoutInside(items[1..], key);
    }
  }

  /** Of the lines that set one key the last decides: the text loads as if the others were not there
      and that one came at the end. */
  lemma LastDecides(before: seq<Item>, key: string, val: string, pads: Pads, after: seq<Item>)
    requires forall item <- before + [Setting(key, val, pads)] + after :: ItemOk(item)
    requires !Sets(after, key)
    ensures Load(TextOfItems(before + [Setting(key, val, pads)] + after))
         == Set(Load(TextOfItems(Without(before, key) + after)), key, val)
  {
    hide Set, ItemOk, Load, Without;
    WithoutInside(before, key);
    ItemsAreRead(Without(before, key) + after);
    var mid := [Setting(key, val, pads)];
    ItemsAreRead(before + mid + after);
    SettledAppend(EMPTY, before + mid, after);
    SettledAppend(EMPTY, before, mid);
    var cfg := Settled(EMPTY, before);
    assert mid[1..] == [] && Settled(cfg, mid) == Set(cfg, key, val);
    SetLater(EMPTY, before, key, val);
    SetLater(Settled(EMPTY, Without(before, key)), after, key, val);
    SettledAppend(EMPTY, Without(before, key), after);
  }

  // ---- Every configuration has a text ----------------------------------------------------

  const TIGHT := Pads("", " ", " ", "")

  function Optional(key: string, val: Option<string>): seq<Item> {
    match val case None => [] case Some(v) => [Setting(key, v, TIGHT)]
  }

  function NumberText(n: Option<nat>): Option<string> {
    match n case None => None case Some(n) => Some(Digits(n))
  }

  /** One line for each field that is there. */
  function ItemsOf(cfg: Config): seq<Item> {
    Optional("disk", cfg.disk) + Optional("kernel", cfg.kernel) + Optional("initrd", cfg.initrd)
    + Optional("memory", NumberText(cfg.memory)) + Optional("cpus", NumberText(cfg.cpus))
    + Optional("ping_mode", if cfg.pingMode.Ssh? then Some("ssh") else None)
    + Optional("cmdline", cfg.cmdline)
    + Optional("vm_ip", match cfg.vmIp case None => None case Some(ip) => Some(IpText(ip)))
  }

  predicate Plain(val: Option<string>) {
    val.Some? ==> Trimmed(val.value) && '\n' !in val.value
  }

  /** Values that a line can hold, and that the program accepts. */
  predicate Writable(cfg: Config) {
    && Plain(cfg.disk) && Plain(cfg.kernel) && Plain(cfg.initrd) && Plain(cfg.cmdline)
    && (cfg.memory.Some? ==> cfg.memory.value <= USIZE_MAX) && (cfg.cpus.Some? ==> cfg.cpus.value <= USIZE_MAX)
    && (cfg.vmIp.Some? ==> IsIp(cfg.vmIp.value))
  }

  function SetOptional(cfg: Config, key: string, val: Option<string>): Config {
    match val case None => cfg case Some(v) => Set(cfg, key, v)
  }

  lemma OptionalSettles(cfg: Config, items: seq<Item>, key: string, val: Option<string>)
    ensures Settled(cfg, items + Optional(key, val)) == SetOptional(Settled(cfg, items), key, val)
  {
    hide Set;
    SettledAppend(cfg, items, Optional(key, val));
    assert val.Some? ==> Optional(key, val)[1..] == [];
  }

  lemma OptionalOk(key: string, val: Option<string>)
    requires KeyLike(key) && Plain(val)
    ensures forall item <- Optional(key, val) :: ItemOk(item)
  {
    assert Blank("") && Blank(" ");
    hide KeyLike, Trimmed, Blank;
  }

  lemma NumberPlain(n: Option<nat>)
    ensures Plain(NumberText(n))
  {
    if n.Some? {
      var t := Digits(n.value);
      assert t[0] in t && t[|t| - 1] in t;
    }
  }

  lemma IpPlain(ip: Ip)
    ensures Plain(Some(IpText(ip)))
  {
    var t := IpText(ip);
    EntryNoNewline(ip);
    assert t[0] == Digits(ip.a)[0] && t[|t| - 1] == Digits(ip.d)[|Digits(ip.d)| - 1];
    assert Digits(ip.a)[0] in Digits(ip.a) && Digits(ip.d)[|Digits(ip.d)| - 1] in Digits(ip.d);
    assert forall c <- t :: c in Entry(ip);
  }

  /** The eight keys, each with its own field. */
  lemma SetTexts(cfg: Config, val: string)
    ensures Set(cfg, "disk", val) == cfg.(disk := Some(val)) && Set(cfg, "kernel", val) == cfg.(kernel := Some(val))
    ensures Set(cfg, "initrd", val) == cfg.(initrd := Some(val))
    ensures Set(cfg, "cmdline", val) == cfg.(cmdline := Some(val))
    ensures Set(cfg, "ping_mode", "ssh") == cfg.(pingMode := Ssh)
  {
  }

  lemma SetNumbers(cfg: Config, n: nat)
    requires n <= USIZE_MAX
    ensures Set(cfg, "memory", Digits(n)) == cfg.(memory := Some(n))
    ensures Set(cfg, "cpus", Digits(n)) == cfg.(cpus := Some(n))
  {
    DigitsAreRead(n, USIZE_MAX);
    hide ParseUnsigned, Digits;
  }

  lemma SetIp(cfg: Config, ip: Ip)
    requires IsIp(ip)
    ensures Set(cfg, "vm_ip", IpText(ip)) == cfg.(vmIp := Some(ip))
  {
    IpRoundTrip(ip);
    hide ParseIp, IpText;
  }

  /** The first three, from nothing. */
  function FilesOf(cfg: Config): Config {
    EMPTY.(disk := cfg.disk, kernel := cfg.kernel, initrd := cfg.initrd)
  }

  lemma FilesSet(cfg: Config)
    ensures SetOptional(SetOptional(SetOptional(EMPTY, "disk", cfg.disk), "kernel", cfg.kernel), "initrd", cfg.initrd)
         == FilesOf(cfg)
  {
    hide Set;
    var c1 := EMPTY.(disk := cfg.disk);
    var c2 := c1.(kernel := cfg.kernel);
    if cfg.disk.Some? {
      SetTexts(EMPTY, cfg.disk.value);
    }
    if cfg.kernel.Some? {
      SetTexts(c1, cfg.kernel.value);
    }
    if cfg.initrd.Some? {
      SetTexts(c2, cfg.initrd.value);
    }
  }

  lemma NumbersSet(c: Config, cfg: Config)
    requires Writable(cfg)
    ensures SetOptional(SetOptional(c, "memory", NumberText(cfg.memory)), "cpus", NumberText(cfg.cpus))
         == c.(memory := if cfg.memory.Some? then cfg.memory else c.memory,
               cpus := if cfg.cpus.Some? then cfg.cpus else c.cpus)
  {
    hide Set, Plain, Digits;
    var c1 := c.(memory := if cfg.memory.Some? then cfg.memory else c.memory);
    if cfg.memory.Some? {
      SetNumbers(c, cfg.memory.value);
    }
    if cfg.cpus.Some? {
      SetNumbers(c1, cfg.cpus.value);
    }
  }

  lemma RestSets(c: Config, cfg: Config)
    requires Writable(cfg) && c == cfg.(pingMode := Vsock, cmdline := None, vmIp := None)
    ensures var c6 := SetOptional(c, "ping_mode", if cfg.pingMode.Ssh? then Some("ssh") else None);
            var c7 := SetOptional(c6, "cmdline", cfg.cmdline);
            SetOptional(c7, "vm_ip", match cfg.vmIp case None => None case Some(ip) => Some(IpText(ip))) == cfg
  {
    hide Set, Plain, IpText;
    SetTexts(c, "");
    var c6 := c.(pingMode := cfg.pingMode);
    if cfg.cmdline.Some? {
      SetTexts(c6, cfg.cmdline.value);
    }
    var c7 := c6.(cmdline := cfg.cmdline);
    if cfg.vmIp.Some? {
      SetIp(c7, cfg.vmIp.value);
    }
  }

  predicate Letters(key: string) {
    key != "" && forall c <- key :: 'a' <= c <= 'z' || c == '_'
  }

  lemma LettersAreKeys(key: string)
    requires Letters(key)
    ensures KeyLike(key) && Plain(Some(key))
  {
    assert key[0] in key && key[|key| - 1] in key;
  }

  lemma KeysAreKeys()
    ensures KeyLike("disk") && KeyLike("kernel") && KeyLike("initrd") && KeyLike("memory") && KeyLike("cpus")
    ensures KeyLike("ping_mode") && KeyLike("cmdline") && KeyLike("vm_ip") && Plain(Some("ssh")) && Plain(None)
  {
    hide KeyLike, Trimmed;
    LettersAreKeys("disk");
    LettersAreKeys("kernel");
    LettersAreKeys("initrd");
    LettersAreKeys("memory");
    LettersAreKeys("cpus");
    LettersAreKeys("ping_mode");
    LettersAreKeys("cmdline");
    LettersAreKeys("vm_ip");
    LettersAreKeys("ssh");
  }

  lemma ItemsOfOk(cfg: Config)
    requires Writable(cfg)
    ensures forall item <- ItemsOf(cfg) :: ItemOk(item)
  {
    KeysAreKeys();
    hide KeyLike, Trimmed, ItemOk, Optional, NumberText, IpText, Plain;
    NumberPlain(cfg.memory);
    NumberPlain(cfg.cpus);
    if cfg.vmIp.Some? {
      IpPlain(cfg.vmIp.value);
    }
    OptionalOk("disk", cfg.disk);
    OptionalOk("kernel", cfg.kernel);
    OptionalOk("initrd", cfg.initrd);
    OptionalOk("memory", NumberText(cfg.memory));
    OptionalOk("cpus", NumberText(cfg.cpus));
    OptionalOk("ping_mode", if cfg.pingMode.Ssh? then Some("ssh") else None);
    OptionalOk("cmdline", cfg.cmdline);
    OptionalOk("vm_ip", match cfg.vmIp case None => None case Some(ip) => Some(IpText(ip)));
  }

  lemma ItemsOfSettle(cfg: Config)
    requires Writable(cfg)
    ensures Settled(EMPTY, ItemsOf(cfg)) == cfg
  {
    FilesSet(cfg);
    NumbersSet(FilesOf(cfg), cfg);
    RestSets(cfg.(pingMode := Vsock, cmdline := None, vmIp := None), cfg);
    hide Set, SetOptional, Optional, NumberText, IpText, Plain;
    var i1 := Optional("disk", cfg.disk);
    var i2 := i1 + Optional("kernel", cfg.kernel);
    var i3 := i2 + Optional("initrd", cfg.initrd);
    var i4 := i3 + Optional("memory", NumberText(cfg.memory));
    var i5 := i4 + Optional("cpus", NumberText(cfg.cpus));
    var i6 := i5 + Optional("ping_mode", if cfg.pingMode.Ssh? then Some("ssh") else None);
    var i7 := i6 + Optional("cmdline", cfg.cmdline);
    assert [] + i1 == i1;
    OptionalSettles(EMPTY, [], "disk", cfg.disk);
    OptionalSettles(EMPTY, i1, "kernel", cfg.kernel);
    OptionalSettles(EMPTY, i2, "initrd", cfg.initrd);
    OptionalSettles(EMPTY, i3, "memory", NumberText(cfg.memory));
    OptionalSettles(EMPTY, i4, "cpus", NumberText(cfg.cpus));
    OptionalSettles(EMPTY, i5, "ping_mode", if cfg.pingMode.Ssh? then Some("ssh") else None);
    OptionalSettles(EMPTY, i6, "cmdline", cfg.cmdline);
    OptionalSettles(EMPTY, i7, "vm_ip", match cfg.vmIp case None => None case Some(ip) => Some(IpText(ip)));
  }

  /** Every configuration is loaded from the text that has a line for each of its fields. */
  lemma ConfRoundTrip(cfg: Config)
    requires Writable(cfg)
    ensures Load(TextOfItems(ItemsOf(cfg))) == cfg
  {
    hide Load, ItemsOf, Writable, ItemOk;
    ItemsOfOk(cfg);
    ItemsAreRead(ItemsOf(cfg));
    ItemsOfSettle(cfg);
  }

  /** A number that cannot be read unsets its field, an address likewise, and any ping mode but ssh is
      vsock. */
  lemma UnreadableUnsets(cfg: Config, val: string, c: char)
    requires c in val && !IsDigit(c) && c != '+' && c != '.'
    ensures Set(cfg, "memory", val) == cfg.(memory := None) && Set(cfg, "cpus", val) == cfg.(cpus := None)
    ensures Set(cfg, "vm_ip", val) == cfg.(vmIp := None)
    ensures val != "ssh" ==> Set(cfg, "ping_mode", val) == cfg.(pingMode := Vsock)
  {
    hide ParseUnsigned, ParseIp;
    assert val == [val[0]] + val[1..];
    if ParseUnsigned(val, USIZE_MAX).Some? {
      OnlyDigitsAreRead(val, USIZE_MAX);
    }
    if ParseIp(val).Some? {
      IpCharacters(val);
    }
  }
}
