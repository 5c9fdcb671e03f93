/**
 The command line splitter: tokens become options, named and unnamed groups, in one pass with one token of
 lookahead. Strings are those of C: no character of them is the terminating zero.
 */
module CmdSplit {
  import opened PrefixCodes

  /** An entry of the option table; `perFile` if any of the three flags that tie an option to a file is set. */
  datatype OptionDef = OptionDef(name: string, exits: bool, hasArg: bool, boolean: bool, perFile: bool)

  /** The separators that close a group of each kind; kind 0 is closed by a bare name. */
  type GroupDefs = seq<Option<string>>

  /** What opt_default says of an option and the token after it. */
  datatype Verdict = Taken | NotFound | Failing

  datatype Grammar = Grammar(options: seq<OptionDef>, groups: GroupDefs, library: (string, string) -> Verdict)

  /** A stored option: its place in the table, the key as written, its argument. */
  datatype Opt = Opt(def: nat, key: string, val: Option<string>)

  datatype Group = Group(opts: seq<Opt>, settings: seq<(string, string)>, arg: string)

  /** The parse context: global options, the group being collected, and the finished groups of each kind. */
  datatype Context = Context(globals: seq<Opt>, opts: seq<Opt>, settings: seq<(string, string)>, groups: seq<seq<Group>>)

  datatype Error = Missing(key: string) | Refused(key: string) | Unrecognized(key: string)

  datatype Outcome = Done(context: Context) | Failed(error: Error)

  // ---------- lookups

  /** The part of a key before its stream specifier. */
  function Stem(key: string): (r: string)
    ensures ':' !in r && r <= key && (r == key || key[|r|] == ':')
  {
    if key == "" || key[0] == ':' then "" else [key[0]] + Stem(key[1..])
  }

  /** First entry of the table, from `i`, with the name of a key. */
  function FindFrom(options: seq<OptionDef>, key: string, i: nat): (r: Option<nat>)
    requires i <= |options|
    ensures r.Some? ==> i <= r.value < |options| && options[r.value].name == Stem(key)
    ensures forall k :: i <= k < (if r.Some? then r.value else |options|) ==> options[k].name != Stem(key)
    decreases |options| - i
  {
    if i == |options| then None else if options[i].name == Stem(key) then Some(i) else FindFrom(options, key, i + 1)
  }

  function Find(options: seq<OptionDef>, key: string): (r: Option<nat>)
    ensures r.Some? ==> r.value < |options|
  {
    FindFrom(options, key, 0)
  }

  /** First kind of group, from `i`, that a key closes. */
  function SeparatedFrom(groups: GroupDefs, key: string, i: nat): (r: Option<nat>)
    requires i <= |groups|
    ensures r.Some? ==> i <= r.value < |groups| && groups[r.value] == Some(key)
    ensures forall k :: i <= k < (if r.Some? then r.value else |groups|) ==> groups[k] != Some(key)
    decreases |groups| - i
  {
    if i == |groups| then None else if groups[i] == Some(key) then Some(i) else SeparatedFrom(groups, key, i + 1)
  }

  function Separated(groups: GroupDefs, key: string): (r: Option<nat>)
    ensures r.Some? ==> r.value < |groups|
  {
    SeparatedFrom(groups, key, 0)
  }

  /** match_group_separator: the loop over the kinds of groups. */
  method MatchGroupSeparator(groups: GroupDefs, opt: string) returns (r: int)
    ensures r == (if Separated(groups, opt).Some? then Separated(groups, opt).value else -1)
  {
    for i := 0 to |groups|
      invariant Separated(groups, opt) == SeparatedFrom(groups, opt, i)
    {
      if groups[i].Some? && groups[i].value == opt {
        return i;
      }
    }
    return -1;
  }

  lemma {:induction false} StemEndsAt(key: string, len: nat)
    requires len <= |key| && ':' !in key[..len] && (len == |key| || key[len] == ':')
    ensures Stem(key) == key[..len]
  {
    if len > 0 {
      assert key[0] == key[..len][0];
      assert key[1..][..len - 1] == key[..len][1..];
      StemEndsAt(key[1..], len - 1);
      assert key[..len] == [key[0]] + key[..len][1..];
    }
  }

  method StemLength(name: string) returns (len: nat)
    ensures len <= |name| && name[..len] == Stem(name)
  {
    len := 0;
    while len < |name| && name[len] != ':'
      invariant len <= |name| && ':' !in name[..len]
    {
      len := len + 1;
    }
    StemEndsAt(name, len);
  }

  /** find_option: the end of the table stands for an option that is not there. */
  method FindOption(options: seq<OptionDef>, name: string) returns (po: nat)
    ensures po == (if Find(options, name).Some? then Find(options, name).value else |options|)
  {
    hide Stem;
    var len := StemLength(name);
    po := 0;
    while po < |options|
      invariant po <= |options|
      invariant Find(options, name) == FindFrom(options, name, po)
    {
      if |options[po].name| == len && options[po].name == name[..len] {
        return;
      }
      po := po + 1;
    }
  }

  // ---------- the grammar of a command line

  datatype Item =
    | Name(arg: string)                     // a bare name
    | Dashed(arg: string)                   // "--" and a name
    | Dashes                                // "--" with no name after it
    | Separator(key: string, arg: string)   // closes a named group
    | Flag(key: string)
    | WithArg(key: string, arg: string)
    | Bare(key: string)                     // last on the line, without its optional argument
    | Setting(key: string, arg: string)     // one of the libraries' options
    | Negated(key: string)                  // "-nofoo"

  function PrintItem(item: Item): (r: seq<string>)
    ensures r != []
  {
    match item
    case Name(a) => [a]
    case Dashed(a) => ["--", a]
    case Dashes => ["--"]
    case Separator(k, a) => ["-" + k, a]
    case Flag(k) => ["-" + k]
    case WithArg(k, a) => ["-" + k, a]
    case Bare(k) => ["-" + k]
    case Setting(k, a) => ["-" + k, a]
    case Negated(k) => ["-" + k]
  }

  function Print(items: seq<Item>): seq<string> {
    if items == [] then [] else PrintItem(items[0]) + Print(items[1..])
  }

  /** A token that names a file. */
  predicate Plain(t: string) {
    t == "" || t[0] != '-' || t == "-"
  }

  predicate IsKey(k: string) {
    k != "" && k != "-"
  }

  function Unnegated(options: seq<OptionDef>, k: string): (r: Option<nat>)
    ensures r.Some? ==> r.value < |options|
  {
    if |k| >= 2 && k[0] == 'n' && k[1] == 'o' && Find(options, k[2..]).Some? && options[Find(options, k[2..]).value].boolean
    then Find(options, k[2..]) else None
  }

  /** An option key that closes no group. */
  predicate Free(g: Grammar, k: string) {
    IsKey(k) && Separated(g.groups, k).None?
  }

  predicate Known(g: Grammar, k: string, exits: bool, takes: bool) {
    Free(g, k) && Find(g.options, k).Some? &&
    var d := g.options[Find(g.options, k).value]; d.exits == exits && (d.exits || d.hasArg) == takes
  }

  /** Whether an item can stand before the given tokens. */
  predicate Legal(g: Grammar, item: Item, rest: seq<string>) {
    match item
    case Name(a) => Plain(a)
    case Dashed(a) => a != "--"
    case Dashes => rest == [] || rest[0] == "--"
    case Separator(k, a) => IsKey(k) && Separated(g.groups, k).Some?
    case Flag(k) => Known(g, k, false, false)
    case WithArg(k, a) => Known(g, k, false, true) || Known(g, k, true, true)
    case Bare(k) => Known(g, k, true, true) && rest == []
    case Setting(k, a) => Free(g, k) && Find(g.options, k).None? && g.library(k, a) == Taken
    case Negated(k) =>
      Free(g, k) && Find(g.options, k).None? && Unnegated(g.options, k).Some? &&
      (rest == [] || g.library(k, rest[0]) == NotFound)
  }

  predicate AllLegal(g: Grammar, items: seq<Item>) {
    items == [] || (Legal(g, items[0], Print(items[1..])) && AllLegal(g, items[1..]))
  }

  // ---------- what items do

  function Finish(c: Context, kind: nat, arg: string): Context
    requires kind < |c.groups|
  {
    Context(c.globals, [], [], c.groups[kind := c.groups[kind] + [Group(c.opts, c.settings, arg)]])
  }

  function Add(g: Grammar, c: Context, o: Opt): Context
    requires o.def < |g.options|
  {
    if g.options[o.def].perFile then c.(opts := c.opts + [o]) else c.(globals := c.globals + [o])
  }

  function Apply(g: Grammar, c: Context, item: Item): (r: Context)
    requires |c.groups| == |g.groups| > 0
    ensures |r.groups| == |g.groups|
  {
    match item
    case Name(a) => Finish(c, 0, a)
    case Dashed(a) => Finish(c, 0, a)
    case Dashes => c
    case Separator(k, a) => if Separated(g.groups, k).Some? then Finish(c, Separated(g.groups, k).value, a) else c
    case Flag(k) => Store(g, c, k, Find(g.options, k), Some("1"))
    case WithArg(k, a) => Store(g, c, k, Find(g.options, k), Some(a))
    case Bare(k) => Store(g, c, k, Find(g.options, k), None)
    case Setting(k, a) => c.(settings := c.settings + [(k, a)])
    case Negated(k) => Store(g, c, k, Unnegated(g.options, k), Some("0"))
  }

  /** Where optindex is after an item whose first token ends at `from`: an exit option takes one token, there or not. */
  predicate StandsBehind(next: nat, item: Item, from: nat, end: nat) {
    if item.Bare? then from == end && next == end + 1 else next == from + |PrintItem(item)| - 1
  }

  function Store(g: Grammar, c: Context, key: string, def: Option<nat>, val: Option<string>): (r: Context)
    requires def.Some? ==> def.value < |g.options|
    ensures r.groups == c.groups
  {
    if def.Some? then Add(g, c, Opt(def.value, key, val)) else c
  }

  function Eval(g: Grammar, c: Context, items: seq<Item>): (r: Context)
    requires |c.groups| == |g.groups| > 0
    ensures |r.groups| == |g.groups|
    decreases |items|
  {
    if items == [] then c else Eval(g, Apply(g, c, items[0]), items[1..])
  }

  // ---------- reading

  datatype Reading = Read(item: Item) | Bad(error: Error)

  /** The first item of some tokens. */
  function ReadItem(g: Grammar, ts: seq<string>): Reading
    requires ts != []
  {
    if ts[0] == "--" then Read(if |ts| > 1 && ts[1] != "--" then Dashed(ts[1]) else Dashes)
    else if Plain(ts[0]) then Read(Name(ts[0]))
    else ReadOption(g, ts[0][1..], ts[1..])
  }

  function ReadOption(g: Grammar, k: string, rest: seq<string>): Reading {
    if Separated(g.groups, k).Some? then
      if rest == [] then Bad(Missing(k)) else Read(Separator(k, rest[0]))
    else if Find(g.options, k).Some? then
      var d := g.options[Find(g.options, k).value];
      if d.exits || d.hasArg then
        if rest != [] then Read(WithArg(k, rest[0])) else if d.exits then Read(Bare(k)) else Bad(Missing(k))
      else Read(Flag(k))
    else ReadForeign(g, k, rest)
  }

  function ReadForeign(g: Grammar, k: string, rest: seq<string>): Reading {
    if rest != [] && g.library(k, rest[0]) == Taken then Read(Setting(k, rest[0]))
    else if rest != [] && g.library(k, rest[0]) == Failing then Bad(Refused(k))
    else if Unnegated(g.options, k).Some? then Read(Negated(k))
    else Bad(Unrecognized(k))
  }

  /** An item takes no more tokens than there are, and these are exactly how it prints. */
  lemma ReadIsPrinted(g: Grammar, ts: seq<string>)
    requires ts != [] && ReadItem(g, ts).Read?
    ensures var item := ReadItem(g, ts).item;
            0 < |PrintItem(item)| <= |ts| && ts == PrintItem(item) + ts[|PrintItem(item)|..] &&
            Legal(g, item, ts[|PrintItem(item)|..])
  {
    hide Stem, FindFrom, SeparatedFrom;
    var item := ReadItem(g, ts).item;
    if !item.Name? && !item.Dashed? && !item.Dashes? {
      assert ts[0] == "-" + ts[0][1..];
      assert |ts[0]| > 1 && ts[0] != "--" && IsKey(ts[0][1..]);
    }
    assert ts == [ts[0]] + ts[1..];
    if |ts| > 1 {
      assert ts == [ts[0], ts[1]] + ts[2..];
    }
  }

  lemma LegalIsRead(g: Grammar, item: Item, rest: seq<string>)
    requires Legal(g, item, rest)
    ensures ReadItem(g, PrintItem(item) + rest) == Read(item)
  {
    hide Stem, FindFrom, SeparatedFrom;
    var ts := PrintItem(item) + rest;
    assert ts[0] == PrintItem(item)[0];
    if !item.Name? && !item.Dashed? && !item.Dashes? {
      assert ts[0][1..] == item.key;
      assert ts[1..] == PrintItem(item)[1..] + rest;
    }
  }

  /** An item that can stand before some tokens is the one that is read there, and no other is. */
  lemma LegalIffRead(g: Grammar, item: Item, rest: seq<string>)
    ensures Legal(g, item, rest) <==> ReadItem(g, PrintItem(item) + rest) == Read(item)
  {
    hide Stem, FindFrom, SeparatedFrom;
    var ts := PrintItem(item) + rest;
    if Legal(g, item, rest) {
      LegalIsRead(g, item, rest);
    }
    if ReadItem(g, ts) == Read(item) {
      assert ts[|PrintItem(item)|..] == rest;
      ReadIsPrinted(g, ts);
    }
  }

  /** The splitter as a function of its tokens. */
  function Split(g: Grammar, c: Context, ts: seq<string>): (r: Outcome)
    requires |c.groups| == |g.groups| > 0
    ensures r.Done? ==> |r.context.groups| == |g.groups|
    decreases |ts|
  {
    if ts == [] then Done(c)
    else
      match ReadItem(g, ts)
      case Bad(e) => Failed(e)
      case Read(item) =>
        ReadIsPrinted(g, ts);
        Split(g, Apply(g, c, item), ts[|PrintItem(item)|..])
  }

  /** The items of a line, as far as they can be read. */
  function ItemsOf(g: Grammar, ts: seq<string>): seq<Item>
    decreases |ts|
  {
    if ts == [] || ReadItem(g, ts).Bad? then []
    else
      ReadIsPrinted(g, ts);
      var item := ReadItem(g, ts).item;
      [item] + ItemsOf(g, ts[|PrintItem(item)|..])
  }

  /** Printing any legal items and splitting the result does exactly what the items say. */
  lemma {:induction false} SplitPrinted(g: Grammar, c: Context, items: seq<Item>)
    requires |c.groups| == |g.groups| > 0 && AllLegal(g, items)
    ensures Split(g, c, Print(items)) == Done(Eval(g, c, items))
    ensures ItemsOf(g, Print(items)) == items
    decreases |items|
  {
    hide ReadItem, Legal, PrintItem, Apply;
    if items != [] {
      LegalIffRead(g, items[0], Print(items[1..]));
      var ts := Print(items);
      ReadIsPrinted(g, ts);
      assert ts[|PrintItem(items[0])|..] == Print(items[1..]);
      SplitPrinted(g, Apply(g, c, items[0]), items[1..]);
      assert items == [items[0]] + items[1..];
    }
  }

  /** Whenever splitting succeeds, its items take up all tokens, each exactly once and in order. */
  lemma {:induction false} SplitConsumes(g: Grammar, c: Context, ts: seq<string>)
    requires |c.groups| == |g.groups| > 0 && Split(g, c, ts).Done?
    ensures AllLegal(g, ItemsOf(g, ts)) && Print(ItemsOf(g, ts)) == ts
    ensures Split(g, c, ts) == Done(Eval(g, c, ItemsOf(g, ts)))
    decreases |ts|
  {
    hide ReadItem, Legal, PrintItem, Apply;
    if ts != [] {
      var item := ReadItem(g, ts).item;
      ReadIsPrinted(g, ts);
      SplitConsumes(g, Apply(g, c, item), ts[|PrintItem(item)|..]);
      assert ItemsOf(g, ts)[1..] == ItemsOf(g, ts[|PrintItem(item)|..]);
    }
  }

  /** So exactly the printed forms of legal items can be split, and each of them in one way. */
  lemma SplitsIff(g: Grammar, c: Context, ts: seq<string>)
    requires |c.groups| == |g.groups| > 0
    ensures Split(g, c, ts).Done? <==> exists items :: AllLegal(g, items) && Print(items) == ts
    ensures forall i1, i2 :: AllLegal(g, i1) && AllLegal(g, i2) && Print(i1) == Print(i2) ==> i1 == i2
  {
    if Split(g, c, ts).Done? {
      SplitConsumes(g, c, ts);
    }
    forall items | AllLegal(g, items) ensures Split(g, c, Print(items)).Done? && ItemsOf(g, Print(items)) == items {
      SplitPrinted(g, c, items);
    }
  }

  // ---------- why a line cannot be split

  /** What the last key read says is missing, refused or unknown. */
  lemma ErrorsMean(g: Grammar, ts: seq<string>)
    requires ts != [] && ReadItem(g, ts).Bad?
    ensures |ts[0]| > 1 && ts[0][0] == '-' && ts[0] != "--"
    ensures var k, sep, def := ts[0][1..], Separated(g.groups, ts[0][1..]), Find(g.options, ts[0][1..]);
            match ReadItem(g, ts).error
            case Missing(m) =>
              m == k && |ts| == 1 &&
              (sep.Some? || (def.Some? && g.options[def.value].hasArg && !g.options[def.value].exits))
            case Refused(m) => m == k && sep.None? && def.None? && |ts| > 1 && g.library(k, ts[1]) == Failing
            case Unrecognized(m) =>
              m == k && sep.None? && def.None? && Unnegated(g.options, k).None? && (|ts| > 1 ==> g.library(k, ts[1]) == NotFound)
  {
    hide Stem, FindFrom, SeparatedFrom;
  }

  /** A line that cannot be split fails at the first key it cannot read, for that key's reason. */
  lemma {:induction false} FailsAtFirstBad(g: Grammar, c: Context, ts: seq<string>) returns (items: seq<Item>, rest: seq<string>)
    requires |c.groups| == |g.groups| > 0 && Split(g, c, ts).Failed?
    ensures ts == Print(items) + rest && rest != [] && ReadItem(g, rest) == Bad(Split(g, c, ts).error)
    decreases |ts|
  {
    hide ReadItem, Apply, PrintItem;
    if ReadItem(g, ts).Bad? {
      items, rest := [], ts;
      assert Print([]) + ts == ts;
    } else {
      var item := ReadItem(g, ts).item;
      ReadIsPrinted(g, ts);
      var more: seq<Item>;
      more, rest := FailsAtFirstBad(g, Apply(g, c, item), ts[|PrintItem(item)|..]);
      items := [item] + more;
      assert items[1..] == more;
      assert PrintItem(item) + (Print(more) + rest) == (PrintItem(item) + Print(more)) + rest;
    }
  }

  // ---------- whole groups

  /** A finished group and its kind. */
  datatype Closed = Closed(kind: nat, group: Group)

  /** An option as the table lets it be written; a negated one must mean nothing to the libraries. */
  ghost predicate Writable(g: Grammar, o: Opt) {
    Free(g, o.key) && o.def < |g.options| &&
    if Find(g.options, o.key).Some? then
      o.def == Find(g.options, o.key).value && o.val.Some? &&
      (!g.options[o.def].exits && !g.options[o.def].hasArg ==> o.val == Some("1"))
    else Unnegated(g.options, o.key) == Some(o.def) && o.val == Some("0") && forall a :: g.library(o.key, a) == NotFound
  }

  function OptItem(g: Grammar, o: Opt): Item {
    if Find(g.options, o.key).None? then Negated(o.key)
    else
      var d := g.options[Find(g.options, o.key).value];
      if (d.exits || d.hasArg) && o.val.Some? then WithArg(o.key, o.val.value) else Flag(o.key)
  }

  predicate IsSetting(g: Grammar, s: (string, string)) {
    Free(g, s.0) && Find(g.options, s.0).None? && g.library(s.0, s.1) == Taken
  }

  /** A kind of group that can be closed: the unnamed one, or one whose separator is its own. */
  predicate HasSeparator(g: Grammar, kind: nat) {
    kind == 0 || (kind < |g.groups| && g.groups[kind].Some? && IsKey(g.groups[kind].value) &&
                  Separated(g.groups, g.groups[kind].value) == Some(kind))
  }

  /** Kind 0 is closed by a name other than "--", the others by their separator. */
  predicate Closable(g: Grammar, x: Closed) {
    HasSeparator(g, x.kind) && (x.kind == 0 ==> x.group.arg != "--")
  }

  function CloseItem(g: Grammar, x: Closed): Item
    requires Closable(g, x)
  {
    if x.kind != 0 then Separator(g.groups[x.kind].value, x.group.arg)
    else if Plain(x.group.arg) then Name(x.group.arg) else Dashed(x.group.arg)
  }

  ghost predicate WellFormed(g: Grammar, x: Closed) {
    Closable(g, x) &&
    (forall o :: o in x.group.opts ==> Writable(g, o) && g.options[o.def].perFile) &&
    (forall s :: s in x.group.settings ==> IsSetting(g, s))
  }

  ghost predicate GlobalsFormed(g: Grammar, os: seq<Opt>) {
    forall o :: o in os ==> Writable(g, o) && !g.options[o.def].perFile
  }

  function OptItems(g: Grammar, os: seq<Opt>): seq<Item> {
    if os == [] then [] else [OptItem(g, os[0])] + OptItems(g, os[1..])
  }

  function SettingItems(ss: seq<(string, string)>): seq<Item> {
    if ss == [] then [] else [Setting(ss[0].0, ss[0].1)] + SettingItems(ss[1..])
  }

  ghost function GroupItems(g: Grammar, x: Closed): seq<Item>
    requires WellFormed(g, x)
  {
    OptItems(g, x.group.opts) + (SettingItems(x.group.settings) + [CloseItem(g, x)])
  }

  ghost function LineItems(g: Grammar, xs: seq<Closed>): seq<Item>
    requires forall x :: x in xs ==> WellFormed(g, x)
  {
    if xs == [] then [] else GroupItems(g, xs[0]) + LineItems(g, xs[1..])
  }

  /** The groups of one kind, in order. */
  function OfKind(xs: seq<Closed>, kind: nat): seq<Group> {
    if xs == [] then [] else (if xs[0].kind == kind then [xs[0].group] else []) + OfKind(xs[1..], kind)
  }

  function ByKind(g: Grammar, xs: seq<Closed>): (r: seq<seq<Group>>)
    ensures |r| == |g.groups| && forall k :: 0 <= k < |r| ==> r[k] == OfKind(xs, k)
  {
    seq(|g.groups|, k requires 0 <= k => OfKind(xs, k))
  }

  /** Legal whatever follows. */
  ghost predicate Robust(g: Grammar, item: Item) {
    forall rest :: Legal(g, item, rest)
  }

  lemma {:induction false} EvalAppended(g: Grammar, c: Context, a: seq<Item>, b: seq<Item>)
    requires |c.groups| == |g.groups| > 0
    ensures Eval(g, c, a + b) == Eval(g, Eval(g, c, a), b)
    decreases |a|
  {
    hide Apply;
    if a == [] {
      assert a + b == b;
    } else {
      assert (a + b)[1..] == a[1..] + b;
      EvalAppended(g, Apply(g, c, a[0]), a[1..], b);
    }
  }

  lemma WritableItem(g: Grammar, c: Context, o: Opt)
    requires |c.groups| == |g.groups| > 0 && Writable(g, o)
    ensures Robust(g, OptItem(g, o)) && Apply(g, c, OptItem(g, o)) == Add(g, c, o)
  {
  }

  lemma DefExists(g: Grammar, o: Opt)
    requires Writable(g, o)
    ensures o.def < |g.options|
  {
  }

  /** Options go where their table entries say, in order. */
  lemma {:induction false} OptsAreStored(g: Grammar, c: Context, os: seq<Opt>, perFile: bool)
    requires |c.groups| == |g.groups| > 0
    requires forall o :: o in os ==> Writable(g, o) && g.options[o.def].perFile == perFile
    ensures forall i :: i in OptItems(g, os) ==> Robust(g, i)
    ensures Eval(g, c, OptItems(g, os)) == if perFile then c.(opts := c.opts + os) else c.(globals := c.globals + os)
    decreases |os|
  {
    hide Robust, Apply, Writable, OptItem;
    if os == [] {
      assert c.opts + os == c.opts && c.globals + os == c.globals;
    } else {
      assert Writable(g, os[0]);
      DefExists(g, os[0]);
      WritableItem(g, c, os[0]);
      OptsAreStored(g, Add(g, c, os[0]), os[1..], perFile);
      assert OptItems(g, os)[1..] == OptItems(g, os[1..]);
      assert c.opts + [os[0]] + os[1..] == c.opts + os && c.globals + [os[0]] + os[1..] == c.globals + os;
    }
  }

  lemma {:induction false} SettingsAreStored(g: Grammar, c: Context, ss: seq<(string, string)>)
    requires |c.groups| == |g.groups| > 0
    requires forall s :: s in ss ==> IsSetting(g, s)
    ensures forall i :: i in SettingItems(ss) ==> Robust(g, i)
    ensures Eval(g, c, SettingItems(ss)) == c.(settings := c.settings + ss)
    decreases |ss|
  {
    if ss == [] {
      assert c.settings + ss == c.settings;
    } else {
      assert IsSetting(g, ss[0]);
      var d := Apply(g, c, Setting(ss[0].0, ss[0].1));
      SettingsAreStored(g, d, ss[1..]);
      assert SettingItems(ss)[1..] == SettingItems(ss[1..]);
      assert [(ss[0].0, ss[0].1)] + ss[1..] == ss;
      assert c.settings + [(ss[0].0, ss[0].1)] + ss[1..] == c.settings + ss;
      assert Robust(g, Setting(ss[0].0, ss[0].1));
    }
  }

  /** A printed group is appended to those of its kind, and nothing is left over for the next. */
  lemma GroupIsStored(g: Grammar, c: Context, x: Closed)
    requires |c.groups| == |g.groups| > 0 && WellFormed(g, x) && c.opts == [] && c.settings == []
    ensures forall i :: i in GroupItems(g, x) ==> Robust(g, i)
    ensures Eval(g, c, GroupItems(g, x)) == c.(groups := c.groups[x.kind := c.groups[x.kind] + [x.group]])
  {
    hide Robust, Writable, OptItem, IsSetting;
    var os, ss, last := OptItems(g, x.group.opts), SettingItems(x.group.settings), CloseItem(g, x);
    OptsAreStored(g, c, x.group.opts, true);
    var c1 := c.(opts := x.group.opts);
    assert c.opts + x.group.opts == x.group.opts && c.settings + x.group.settings == x.group.settings;
    SettingsAreStored(g, c1, x.group.settings);
    var c2 := c1.(settings := x.group.settings);
    EvalAppended(g, c, os, ss + [last]);
    EvalAppended(g, c1, ss, [last]);
    CloseIsRobust(g, x);
    assert [last][1..] == [];
    assert Eval(g, c2, [last]) == Apply(g, c2, last) == Finish(c2, x.kind, x.group.arg);
  }

  lemma CloseIsRobust(g: Grammar, x: Closed)
    requires Closable(g, x)
    ensures Robust(g, CloseItem(g, x))
  {
  }

  lemma KindExists(g: Grammar, x: Closed)
    requires |g.groups| > 0 && WellFormed(g, x)
    ensures x.kind < |g.groups|
  {
  }

  /** Printing groups and splitting the line gives the groups back, kind by kind in order, after those already there. */
  lemma {:induction false} GroupsAreStored(g: Grammar, c: Context, xs: seq<Closed>)
    requires |c.groups| == |g.groups| > 0 && c.opts == [] && c.settings == []
    requires forall x :: x in xs ==> WellFormed(g, x)
    ensures forall i :: i in LineItems(g, xs) ==> Robust(g, i)
    ensures var d := Eval(g, c, LineItems(g, xs));
            d.globals == c.globals && d.opts == [] && d.settings == [] &&
            forall k :: 0 <= k < |g.groups| ==> d.groups[k] == c.groups[k] + OfKind(xs, k)
    decreases |xs|
  {
    hide Robust, WellFormed, GroupItems, Apply;
    if xs != [] {
      var x, d := xs[0], Eval(g, c, GroupItems(g, xs[0]));
      KindExists(g, x);
      GroupIsStored(g, c, x);
      EvalAppended(g, c, GroupItems(g, x), LineItems(g, xs[1..]));
      GroupsAreStored(g, d, xs[1..]);
      forall k | 0 <= k < |g.groups| ensures d.groups[k] + OfKind(xs[1..], k) == c.groups[k] + OfKind(xs, k) {
        assert c.groups[k] + [x.group] + OfKind(xs[1..], k) == c.groups[k] + ([x.group] + OfKind(xs[1..], k));
        assert [] + OfKind(xs[1..], k) == OfKind(xs[1..], k);
      }
    }
  }

  function Empty(g: Grammar): Context {
    Context([], [], [], seq(|g.groups|, _ => []))
  }

  /** An exit option may end the line without its optional argument. */
  predicate MayEnd(g: Grammar, bare: Option<string>) {
    bare.Some? ==> Known(g, bare.value, true, true)
  }

  function BareItems(bare: Option<string>): seq<Item> {
    if bare.Some? then [Bare(bare.value)] else []
  }

  ghost function LinePrinted(g: Grammar, globals: seq<Opt>, xs: seq<Closed>, bare: Option<string>): seq<string>
    requires GlobalsFormed(g, globals) && forall x :: x in xs ==> WellFormed(g, x)
  {
    Print(OptItems(g, globals) + LineItems(g, xs) + BareItems(bare))
  }

  /** What a line means: its globals and groups, and the option that ends it. */
  function LineMeaning(g: Grammar, globals: seq<Opt>, xs: seq<Closed>, bare: Option<string>): Context {
    var c := Context(globals, [], [], ByKind(g, xs));
    if bare.Some? then Store(g, c, bare.value, Find(g.options, bare.value), None) else c
  }

  /**
   The round trip: global options and any list of groups, printed and split, come back with an empty current group,
   but for an exit option that ends the line.
   */
  lemma LineRoundTrip(g: Grammar, globals: seq<Opt>, xs: seq<Closed>, bare: Option<string>)
    requires |g.groups| > 0 && GlobalsFormed(g, globals) && forall x :: x in xs ==> WellFormed(g, x)
    requires MayEnd(g, bare)
    ensures Split(g, Empty(g), LinePrinted(g, globals, xs, bare)) == Done(LineMeaning(g, globals, xs, bare))
  {
    hide Robust, WellFormed, Writable, Apply, Legal, Eval, Split, Print, AllLegal, OptItems, LineItems, OfKind, ByKind,
         Store, Known;
    var c := Empty(g);
    var c1 := c.(globals := globals);
    OptsAreStored(g, c, globals, false);
    assert c.globals + globals == globals;
    GroupsAreStored(g, c1, xs);
    EvalAppended(g, c, OptItems(g, globals), LineItems(g, xs));
    var items := OptItems(g, globals) + LineItems(g, xs);
    assert forall i :: i in items ==> i in OptItems(g, globals) || i in LineItems(g, xs);
    RobustThenBare(g, items, bare);
    EvalAppended(g, c, items, BareItems(bare));
    SplitPrinted(g, c, items + BareItems(bare));
    var d := Eval(g, c1, LineItems(g, xs));
    assert d.groups == ByKind(g, xs) by {
      assert forall k :: 0 <= k < |g.groups| ==> d.groups[k] == [] + OfKind(xs, k) == OfKind(xs, k);
    }
    EvalBare(g, d, bare);
  }

  lemma EvalBare(g: Grammar, c: Context, bare: Option<string>)
    requires |c.groups| == |g.groups| > 0
    ensures Eval(g, c, BareItems(bare)) ==
            if bare.Some? then Store(g, c, bare.value, Find(g.options, bare.value), None) else c
  {
    hide Store;
    if bare.Some? {
      assert BareItems(bare)[1..] == [];
    }
  }

  lemma {:induction false} RobustThenBare(g: Grammar, items: seq<Item>, bare: Option<string>)
    requires (forall i :: i in items ==> Robust(g, i)) && MayEnd(g, bare)
    ensures AllLegal(g, items + BareItems(bare))
  {
    var all := items + BareItems(bare);
    if items != [] {
      assert all[1..] == items[1..] + BareItems(bare);
      assert Robust(g, items[0]) && Legal(g, items[0], Print(all[1..]));
      RobustThenBare(g, items[1..], bare);
    } else if bare.Some? {
      assert all == [Bare(bare.value)] && all[1..] == [];
    }
  }

  // ---------- which names an unnamed group can have

  /** A finished group of some kind is closed by this name. */
  predicate Named(c: Context, kind: nat, name: string)
    requires kind < |c.groups|
  {
    exists i :: 0 <= i < |c.groups[kind]| && c.groups[kind][i].arg == name
  }

  lemma NamedAfter(g: Grammar, c: Context, ts: seq<string>, name: string)
    requires |c.groups| == |g.groups| > 0 && g.groups[0] == None && ts != [] && ReadItem(g, ts).Read?
    requires Named(Apply(g, c, ReadItem(g, ts).item), 0, name)
    ensures Named(c, 0, name) || name != "--"
  {
    hide Find, FindFrom, SeparatedFrom, Stem;
    var d := Apply(g, c, ReadItem(g, ts).item);
    var i :| 0 <= i < |d.groups[0]| && d.groups[0][i].arg == name;
    if i < |c.groups[0]| && d.groups[0][i] == c.groups[0][i] {
      assert Named(c, 0, name);
    }
  }

  /** No successful split closes an unnamed group with the name "--", unless it was there before. */
  lemma {:induction false} UnnamedIsNotDashes(g: Grammar, c: Context, ts: seq<string>)
    requires |c.groups| == |g.groups| > 0 && g.groups[0] == None && Split(g, c, ts).Done?
    ensures Named(Split(g, c, ts).context, 0, "--") ==> Named(c, 0, "--")
    decreases |ts|
  {
    hide ReadItem, Apply, Named, PrintItem;
    if ts != [] {
      var item := ReadItem(g, ts).item;
      ReadIsPrinted(g, ts);
      var d := Apply(g, c, item);
      UnnamedIsNotDashes(g, d, ts[|PrintItem(item)|..]);
      if Named(d, 0, "--") {
        NamedAfter(g, c, ts, "--");
      }
    }
  }

  /** Some command line closes a group of this kind with this name. */
  ghost predicate CanBeNamed(g: Grammar, kind: nat, name: string)
    requires kind < |g.groups|
  {
    exists ts :: NamesIt(g, ts, kind, name)
  }

  predicate NamesIt(g: Grammar, ts: seq<string>, kind: nat, name: string)
    requires kind < |g.groups|
  {
    var r := Split(g, Empty(g), ts);
    r.Done? && Named(r.context, kind, name)
  }

  /** Groups with a separator take any name; an unnamed group takes any but "--". */
  lemma CanBeNamedIff(g: Grammar, kind: nat, name: string)
    requires kind < |g.groups| && g.groups[0] == None && HasSeparator(g, kind)
    ensures CanBeNamed(g, kind, name) <==> kind != 0 || name != "--"
  {
    if kind != 0 || name != "--" {
      var x := Closed(kind, Group([], [], name));
      LineRoundTrip(g, [], [x], None);
      OneGroup(x);
      assert NamesIt(g, LinePrinted(g, [], [x], None), kind, name) by {
        hide Split;
        assert ByKind(g, [x])[kind][0].arg == name;
      }
    } else {
      forall ts ensures !NamesIt(g, ts, kind, name) {
        if Split(g, Empty(g), ts).Done? {
          UnnamedIsNotDashes(g, Empty(g), ts);
        }
      }
    }
  }

  lemma OneGroup(x: Closed)
    ensures OfKind([x], x.kind) == [x.group]
  {
    assert OfKind([x], x.kind) == [x.group] + OfKind([], x.kind);
  }

  // ---------- the parse context, updated in place

  class OptionParseContext {
    const grammar: Grammar
    var globalOpts: seq<Opt>
    var curOpts: seq<Opt>
    var curSettings: seq<(string, string)>
    var groups: seq<seq<Group>>

    constructor (grammar: Grammar)
      ensures this.grammar == grammar && State() == Empty(grammar)
    {
      this.grammar := grammar;
      globalOpts, curOpts, curSettings, groups := [], [], [], seq(|grammar.groups|, _ => []);
    }

    ghost function State(): Context
      reads this
    {
      Context(globalOpts, curOpts, curSettings, groups)
    }

    /** finish_group. */
    method FinishGroup(kind: nat, arg: string)
      requires kind < |groups|
      modifies this
      ensures State() == Finish(old(State()), kind, arg)
    {
      groups := groups[kind := groups[kind] + [Group(curOpts, curSettings, arg)]];
      curOpts, curSettings := [], [];
    }

    /** add_opt. */
    method AddOpt(po: nat, key: string, val: Option<string>)
      requires po < |grammar.options|
      modifies this
      ensures State() == Add(grammar, old(State()), Opt(po, key, val))
    {
      if grammar.options[po].perFile {
        curOpts := curOpts + [Opt(po, key, val)];
      } else {
        globalOpts := globalOpts + [Opt(po, key, val)];
      }
    }

    /** What is left to do at a token; right after "--" the next token is a name unless it is "--" again. */
    ghost function Rest(ts: seq<string>, afterDashes: bool): Outcome
      requires |groups| == |grammar.groups| > 0
      reads this
    {
      if afterDashes && ts != [] && ts[0] != "--" then Split(grammar, Finish(State(), 0, ts[0]), ts[1..])
      else Split(grammar, State(), ts)
    }

    /** An option other than "--" and a bare name, already read; the tokens after it start at `optindex`. */
    method ReadDashed(opt: string, argv: seq<string>, optindex: nat) returns (error: Option<Error>, next: nat)
      requires |groups| == |grammar.groups| > 0 && optindex <= |argv|
      modifies this
      ensures |groups| == |grammar.groups|
      ensures var r := ReadOption(grammar, opt, argv[optindex..]);
              if r.Bad? then error == Some(r.error)
              else error == None && State() == Apply(grammar, old(State()), r.item) &&
                   StandsBehind(next, r.item, optindex, |argv|)
    {
      hide Stem, FindFrom, SeparatedFrom;
      var arg: Option<string>;
      next := optindex;
      var ret := MatchGroupSeparator(grammar.groups, opt);
      if ret >= 0 {
        if next >= |argv| {
          return Some(Missing(opt)), next;
        }
        FinishGroup(ret, argv[next]);
        return None, next + 1;
      }
      var po := FindOption(grammar.options, opt);
      if po < |grammar.options| {
        if grammar.options[po].exits {
          arg := if next < |argv| then Some(argv[next]) else None;
          next := next + 1;
        } else if grammar.options[po].hasArg {
          if next >= |argv| {
            return Some(Missing(opt)), next;
          }
          arg := Some(argv[next]);
          next := next + 1;
        } else {
          arg := Some("1");
        }
        AddOpt(po, opt, arg);
        return None, next;
      }
      if next < |argv| {
        var verdict := grammar.library(opt, argv[next]);
        if verdict == Taken {
          curSettings := curSettings + [(opt, argv[next])];
          return None, next + 1;
        } else if verdict != NotFound {
          return Some(Refused(opt)), next;
        }
      }
      if |opt| >= 2 && opt[0] == 'n' && opt[1] == 'o' {
        po := FindOption(grammar.options, opt[2..]);
        if po < |grammar.options| && grammar.options[po].boolean {
          AddOpt(po, opt, Some("0"));
          return None, next;
        }
      }
      return Some(Unrecognized(opt)), next;
    }

    /** The whole pass over argv, whose first token is the program's name. */
    method SplitCommandline(argv: seq<string>) returns (error: Option<Error>)
      requires |argv| > 0 && |grammar.groups| > 0
      modifies this
      ensures var r := Split(grammar, Empty(grammar), argv[1..]);
              if r.Done? then error == None && State() == r.context else error == Some(r.error)
    {
      var optindex, dashdash := 1, -2;
      globalOpts, curOpts, curSettings, groups := [], [], [], seq(|grammar.groups|, _ => []);
      while optindex < |argv|
        invariant 1 <= optindex <= |argv| + 1 && dashdash <= optindex && |groups| == |grammar.groups|
        invariant Split(grammar, Empty(grammar), argv[1..]) ==
                  Rest(if optindex <= |argv| then argv[optindex..] else [], dashdash == optindex)
        decreases |argv| - optindex
      {
        hide Split, ReadOption, Apply, Finish, StandsBehind, PrintItem;
        var ts, dashes := argv[optindex..], dashdash == optindex;
        var opt := argv[optindex];
        optindex := optindex + 1;
        assert ts[1..] == argv[optindex..] && ts[0] == opt;
        if opt == "--" {
          AtDashes(grammar, State(), ts);
          dashdash := optindex;
          continue;
        }
        if opt == "" || opt[0] != '-' || |opt| == 1 || dashdash + 1 == optindex {
          AtName(grammar, State(), ts);
          FinishGroup(0, opt);
          continue;
        }
        ghost var c := State();
        var next: nat;
        error, next := ReadDashed(opt[1..], argv, optindex);
        AtOption(grammar, c, ts);
        if error.Some? {
          return;
        }
        AfterOption(ReadOption(grammar, opt[1..], ts[1..]).item, argv, ts, optindex, next);
        optindex := next;
      }
      error := None;
    }
  }

  // ---------- one turn of the loop, seen from the function

  lemma AtDashes(g: Grammar, c: Context, ts: seq<string>)
    requires |c.groups| == |g.groups| > 0 && ts != [] && ts[0] == "--"
    ensures Split(g, c, ts) ==
              if |ts| > 1 && ts[1] != "--" then Split(g, Finish(c, 0, ts[1]), ts[1..][1..]) else Split(g, c, ts[1..])
  {
    assert |ts| > 1 ==> ts[2..] == ts[1..][1..];
  }

  lemma AtName(g: Grammar, c: Context, ts: seq<string>)
    requires |c.groups| == |g.groups| > 0 && ts != [] && ts[0] != "--"
    ensures Plain(ts[0]) ==> Split(g, c, ts) == Split(g, Finish(c, 0, ts[0]), ts[1..])
  {
  }

  lemma AtOption(g: Grammar, c: Context, ts: seq<string>)
    requires |c.groups| == |g.groups| > 0 && ts != [] && ts[0] != "--" && !Plain(ts[0])
    ensures var r := ReadOption(g, ts[0][1..], ts[1..]);
            r.Bad? ==> Split(g, c, ts) == Failed(r.error)
    ensures var r := ReadOption(g, ts[0][1..], ts[1..]);
            r.Read? ==> 0 < |PrintItem(r.item)| <= |ts| &&
                        Split(g, c, ts) == Split(g, Apply(g, c, r.item), ts[|PrintItem(r.item)|..])
  {
    hide ReadOption, Apply;
    if ReadOption(g, ts[0][1..], ts[1..]).Read? {
      ReadIsPrinted(g, ts);
    }
  }

  /** Where the next turn starts. */
  lemma AfterOption(item: Item, argv: seq<string>, ts: seq<string>, optindex: nat, next: nat)
    requires 0 < optindex <= |argv| && ts == argv[optindex - 1..] && 0 < |PrintItem(item)| <= |ts|
    requires StandsBehind(next, item, optindex, |argv|)
    ensures optindex <= next <= |argv| + 1
    ensures (if next <= |argv| then argv[next..] else []) == ts[|PrintItem(item)|..]
  {
  }
}
