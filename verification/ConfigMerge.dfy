/** Merging a config file with the command line (src/config.rs): who wins, token by token. */
module ConfigMerge {
  import opened Bytes

  /** The option names of the command line, as its definition lists them. */
  datatype Tables = Tables(longs: set<string>, bools: set<string>, appends: set<string>)

  const MODE := "mode"

  predicate Named(t: Tables) {
    && MODE in t.longs && MODE !in t.bools && MODE !in t.appends
    && forall k :: k in t.longs ==> '=' !in k
  }

  /** One line of the file that is neither blank nor a comment, split at its first equals sign. */
  datatype Line = Line(key: string, value: Option<string>)

  predicate Dash(s: string) { s != "" && s[0] == '-' }

  function Bare(key: string): string { "--" + key }

  function Inline(key: string): string { "--" + key + "=" }

  // ------------------------------------------------------------------------
  // Tokens
  // ------------------------------------------------------------------------

  /** `remove_earlier_option`: every occurrence of the option goes, with its value. */
  function Strip(ts: seq<string>, key: string): seq<string>
    decreases |ts|
  {
    if ts == [] then []
    else if ts[0] == Bare(key) then
      if |ts| > 1 && !Dash(ts[1]) then Strip(ts[2..], key) else Strip(ts[1..], key)
    else if Inline(key) <= ts[0] then Strip(ts[1..], key)
    else [ts[0]] + Strip(ts[1..], key)
  }

  /** What a line contributes, unless it is an error. */
  function LineTokens(t: Tables, l: Line): Option<seq<string>> {
    if l.key !in t.longs then None
    else if l.key == MODE then
      if l.value == Some("server") then Some(["-s"]) else if l.value == Some("client") then Some(["-c"]) else None
    else if l.key in t.bools then
      if l.value.None? || l.value == Some("true") then Some([Bare(l.key)]) else None
    else if l.value.None? then None
    else Some([Bare(l.key), l.value.value])
  }

  function AddLine(t: Tables, ts: seq<string>, l: Line): Option<seq<string>> {
    var own := LineTokens(t, l);
    if own.None? then None else Some((if l.key in t.appends then ts else Strip(ts, l.key)) + own.value)
  }

  /** The file, line after line. */
  function FileTokens(t: Tables, lines: seq<Line>): Option<seq<string>> {
    if lines == [] then Some([])
    else
      var before := FileTokens(t, lines[..|lines| - 1]);
      if before.None? then None else AddLine(t, before.value, lines[|lines| - 1])
  }

  /** Where the key of a token ends. */
  function KeyEnd(s: string): (n: nat)
    ensures n <= |s|
  {
    if s == "" || s[0] == '=' then 0 else 1 + KeyEnd(s[1..])
  }

  /** The single-value options a command line names. */
  function CliKeys(t: Tables, cli: seq<string>): set<string> {
    set a | a in cli && "--" <= a && var k := a[2..]; k[..KeyEnd(k)] in t.longs && k[..KeyEnd(k)] !in t.appends
      :: a[2..][..KeyEnd(a[2..])]
  }

  predicate CliMode(cli: seq<string>) { "-c" in cli || "-s" in cli }

  // ------------------------------------------------------------------------
  // Items: what the tokens mean
  // ------------------------------------------------------------------------

  datatype Item = ModeFlag(flag: string) | Switch(key: string) | Opt(key: string, value: string)

  function Tokens(i: Item): seq<string> {
    match i
    case ModeFlag(f) => [f]
    case Switch(k) => [Bare(k)]
    case Opt(k, v) => [Bare(k), v]
  }

  function Flatten(items: seq<Item>): seq<string> {
    if items == [] then [] else Tokens(items[0]) + Flatten(items[1..])
  }

  predicate TidyItem(i: Item) {
    match i
    case ModeFlag(f) => f == "-s" || f == "-c"
    case Switch(k) => '=' !in k
    case Opt(k, v) => '=' !in k && !Dash(v)
  }

  predicate Tidy(items: seq<Item>) { forall i :: 0 <= i < |items| ==> TidyItem(items[i]) }

  predicate Names(i: Item, key: string) { !i.ModeFlag? && i.key == key }

  function Without(items: seq<Item>, key: string): seq<Item> {
    if items == [] then []
    else (if Names(items[0], key) then [] else [items[0]]) + Without(items[1..], key)
  }

  lemma {:induction false} FlattenAppend(a: seq<Item>, b: seq<Item>)
    ensures Flatten(a + b) == Flatten(a) + Flatten(b)
  {
    if a == [] {
      assert a + b == b;
    } else {
      assert (a + b)[1..] == a[1..] + b;
      FlattenAppend(a[1..], b);
    }
  }

  lemma NoPrefix(k: string, key: string, s: string)
    requires '=' !in k
    ensures !(Inline(key) <= Bare(k))
    ensures Bare(k) == Bare(key) <==> k == key
    ensures !Dash(s) ==> s != Bare(key) && !(Inline(key) <= s)
  {
    assert Inline(key)[|Inline(key)| - 1] == '=' && Inline(key)[2..2 + |key|] == key;
    assert Bare(k)[2..] == k && Bare(key)[2..] == key;
  }

  lemma StripOne(ts: seq<string>, key: string, x: string)
    requires x != Bare(key) && !(Inline(key) <= x)
    ensures Strip([x] + ts, key) == [x] + Strip(ts, key)
  {
    assert ([x] + ts)[1..] == ts;
  }

  // ------------------------------------------------------------------------
  // When exactly one removal is right
  // ------------------------------------------------------------------------

  /** The token is itself taken for an occurrence of the option. */
  predicate Occurs(key: string, t: string) { t == Bare(key) || Inline(key) <= t }

  /** Keys are option names and modes are mode flags; values are anything. */
  predicate NamedItem(i: Item) {
    match i
    case ModeFlag(f) => f == "-s" || f == "-c"
    case Switch(k) => '=' !in k
    case Opt(k, _) => '=' !in k
  }

  predicate AllNamed(items: seq<Item>) { forall i :: 0 <= i < |items| ==> NamedItem(items[i]) }

  /** The value of this option stays behind when the option is removed. */
  predicate Lingers(i: Item, key: string) { i.Opt? && i.key == key && Dash(i.value) && !Occurs(key, i.value) }

  /** The value of another option is taken for an occurrence and goes. */
  predicate Mistaken(i: Item, key: string) { i.Opt? && i.key != key && Occurs(key, i.value) }

  /** What removal leaves of an item's tokens. */
  function Left(i: Item, key: string): seq<string> {
    if Lingers(i, key) then [i.value]
    else if Mistaken(i, key) then [Bare(i.key)]
    else if Names(i, key) then []
    else Tokens(i)
  }

  lemma OccursIsDash(key: string, t: string)
    requires Occurs(key, t)
    ensures Dash(t)
  {
    assert Bare(key)[0] == '-' && Inline(key)[0] == '-';
  }

  lemma StripOccurrence(ts: seq<string>, key: string, x: string)
    requires Occurs(key, x) && (ts == [] || Dash(ts[0]))
    ensures Strip([x] + ts, key) == Strip(ts, key)
  {
    assert ([x] + ts)[1..] == ts;
  }

  lemma StripAnyItem(i: Item, ts: seq<string>, key: string)
    requires NamedItem(i) && (ts == [] || Dash(ts[0]))
    ensures Strip(Tokens(i) + ts, key) == Left(i, key) + Strip(ts, key)
  {
    hide Strip;
    match i
    case ModeFlag(f) =>
      ModeIsKept(f, key);
      StripOne(ts, key, f);
    case Switch(k) =>
      NoPrefix(k, key, "");
      if k == key { StripOccurrence(ts, key, Bare(k)); } else { StripOne(ts, key, Bare(k)); }
    case Opt(k, v) =>
      NoPrefix(k, key, v);
      assert [Bare(k), v] + ts == [Bare(k)] + ([v] + ts);
      assert ([v] + ts)[0] == v;
      if Occurs(key, v) {
        OccursIsDash(key, v);
        StripOccurrence(ts, key, v);
      } else {
        StripOne(ts, key, v);
      }
      if k == key && !Dash(v) {
        StripPair(ts, key, v);
      } else if k == key {
        StripOccurrence([v] + ts, key, Bare(k));
      } else {
        StripOne([v] + ts, key, Bare(k));
        assert [Bare(k)] + ([v] + Strip(ts, key)) == [Bare(k), v] + Strip(ts, key);
      }
  }

  function Remains(items: seq<Item>, key: string): seq<string> {
    if items == [] then [] else Left(items[0], key) + Remains(items[1..], key)
  }

  lemma NamedStartsWithDash(items: seq<Item>)
    requires AllNamed(items) && items != []
    ensures Flatten(items) != [] && Dash(Flatten(items)[0])
  {
    assert NamedItem(items[0]);
  }

  lemma {:induction false} StripRemains(items: seq<Item>, key: string)
    requires AllNamed(items)
    ensures Strip(Flatten(items), key) == Remains(items, key)
  {
    if items != [] {
      var rest := items[1..];
      assert NamedItem(items[0]) && AllNamed(rest);
      if rest != [] { NamedStartsWithDash(rest); }
      StripRemains(rest, key);
      hide Strip, Left, Tokens, NamedItem;
      StripAnyItem(items[0], Flatten(rest), key);
    }
  }

  /** Every option of this key can be removed with its value, and no other value is mistaken for it. */
  predicate Removable(items: seq<Item>, key: string) {
    forall i :: 0 <= i < |items| ==> !Lingers(items[i], key) && !Mistaken(items[i], key)
  }

  function HowMany(items: seq<Item>, p: Item -> bool): nat {
    if items == [] then 0 else (if p(items[0]) then 1 else 0) + HowMany(items[1..], p)
  }

  lemma {:induction false} Lengths(items: seq<Item>, key: string)
    ensures |Remains(items, key)| + HowMany(items, (i: Item) => Mistaken(i, key)) ==
            |Flatten(Without(items, key))| + HowMany(items, (i: Item) => Lingers(i, key))
  {
    if items != [] {
      var i, rest := items[0], items[1..];
      Lengths(rest, key);
      if Names(i, key) {
        assert Without(items, key) == Without(rest, key);
      } else {
        assert Without(items, key) == [i] + Without(rest, key);
        assert ([i] + Without(rest, key))[1..] == Without(rest, key);
      }
    }
  }

  lemma {:induction false} CountedIsThere(items: seq<Item>, p: Item -> bool)
    ensures HowMany(items, p) == 0 <==> forall i :: 0 <= i < |items| ==> !p(items[i])
  {
    if items != [] {
      CountedIsThere(items[1..], p);
      assert forall i :: 0 < i < |items| ==> items[i] == items[1..][i - 1];
    }
  }

  lemma {:induction false} NoneOccurs(ts: seq<string>, key: string)
    ensures forall t :: t in Strip(ts, key) ==> !Occurs(key, t)
    decreases |ts|
  {
    if ts != [] {
      NoneOccurs(ts[1..], key);
      if |ts| > 1 { NoneOccurs(ts[2..], key); }
    }
  }

  lemma {:induction false} MistakenStays(items: seq<Item>, key: string, n: nat)
    requires n < |items| && Mistaken(items[n], key)
    ensures items[n].value in Flatten(Without(items, key))
  {
    var i, rest := items[0], items[1..];
    if n == 0 {
      assert Without(items, key) == [i] + Without(rest, key);
      assert Flatten([i] + Without(rest, key)) == Tokens(i) + Flatten(([i] + Without(rest, key))[1..]);
      assert Tokens(i)[1] == i.value;
    } else {
      MistakenStays(rest, key, n - 1);
      if Names(i, key) {
        assert Without(items, key) == Without(rest, key);
      } else {
        assert Without(items, key) == [i] + Without(rest, key);
        assert ([i] + Without(rest, key))[1..] == Without(rest, key);
      }
    }
  }

  lemma {:induction false} RemainsWhenRemovable(items: seq<Item>, key: string)
    requires Removable(items, key)
    ensures Remains(items, key) == Flatten(Without(items, key))
  {
    if items != [] {
      var i, rest := items[0], items[1..];
      assert !Lingers(i, key) && !Mistaken(i, key);
      RemainsWhenRemovable(rest, key);
      if Names(i, key) {
        assert Without(items, key) == Without(rest, key);
      } else {
        assert Without(items, key) == [i] + Without(rest, key);
        assert ([i] + Without(rest, key))[1..] == Without(rest, key);
      }
    }
  }

  /**
    Removing an option's tokens removes exactly its items if and only if every value of that option either does not
    start with a dash or is itself taken for an occurrence, and no value of another option is taken for one.
  */
  lemma StripExact(items: seq<Item>, key: string)
    requires AllNamed(items)
    ensures Strip(Flatten(items), key) == Flatten(Without(items, key)) <==> Removable(items, key)
  {
    hide Strip, Flatten, Without, Remains, Lingers, Mistaken, Occurs, HowMany;
    StripRemains(items, key);
    if Removable(items, key) {
      RemainsWhenRemovable(items, key);
    } else if n :| 0 <= n < |items| && Mistaken(items[n], key) {
      MistakenStays(items, key, n);
      NoneOccurs(Flatten(items), key);
      MistakenOccurs(items[n], key);
    } else {
      Lengths(items, key);
      CountedIsThere(items, (i: Item) => Mistaken(i, key));
      CountedIsThere(items, (i: Item) => Lingers(i, key));
    }
  }

  lemma MistakenOccurs(i: Item, key: string)
    requires Mistaken(i, key)
    ensures Occurs(key, i.value)
  {
  }

  /** On tidy items, stripping tokens is dropping items. */
  lemma StripFlatten(items: seq<Item>, key: string)
    requires Tidy(items)
    ensures Strip(Flatten(items), key) == Flatten(Without(items, key))
  {
    forall n | 0 <= n < |items|
      ensures NamedItem(items[n]) && !Lingers(items[n], key) && !Mistaken(items[n], key)
    {
      assert TidyItem(items[n]);
      if items[n].Opt? && Occurs(key, items[n].value) { OccursIsDash(key, items[n].value); }
    }
    hide Strip, Flatten, Without;
    StripExact(items, key);
  }

  lemma ModeIsKept(f: string, key: string)
    requires f == "-s" || f == "-c"
    ensures f != Bare(key) && !(Inline(key) <= f)
  {
    assert Bare(key)[1] == '-' && Inline(key)[1] == '-';
  }

  lemma StripPair(ts: seq<string>, key: string, v: string)
    requires !Dash(v)
    ensures Strip([Bare(key)] + ([v] + ts), key) == Strip(ts, key)
  {
    assert ([Bare(key)] + ([v] + ts))[2..] == ts;
  }

  // ------------------------------------------------------------------------
  // The file: the last line wins
  // ------------------------------------------------------------------------

  function ItemOf(t: Tables, l: Line): Item {
    if l.key == MODE then ModeFlag(if l.value == Some("server") then "-s" else "-c")
    else if l.key in t.bools then Switch(l.key)
    else Opt(l.key, if l.value.Some? then l.value.value else "")
  }

  predicate NoDashes(lines: seq<Line>) {
    forall i :: 0 <= i < |lines| ==> lines[i].value.Some? ==> !Dash(lines[i].value.value)
  }

  predicate KeyIn(lines: seq<Line>, key: string) { exists i :: 0 <= i < |lines| && lines[i].key == key }

  /** Append options and modes pile up; any other line stands unless a later one has its key. */
  predicate Stands(t: Tables, l: Line, later: seq<Line>) {
    l.key in t.appends || l.key == MODE || !KeyIn(later, l.key)
  }

  function Survivors(t: Tables, lines: seq<Line>): seq<Item> {
    if lines == [] then []
    else (if Stands(t, lines[0], lines[1..]) then [ItemOf(t, lines[0])] else []) + Survivors(t, lines[1..])
  }

  lemma {:induction false} SurvivorsTidy(t: Tables, lines: seq<Line>)
    requires Named(t) && NoDashes(lines) && forall i :: 0 <= i < |lines| ==> LineTokens(t, lines[i]).Some?
    ensures Tidy(Survivors(t, lines))
  {
    if lines != [] { SurvivorsTidy(t, lines[1..]); }
  }

  lemma {:induction false} KeyInAppend(lines: seq<Line>, l: Line, key: string)
    ensures KeyIn(lines + [l], key) <==> KeyIn(lines, key) || l.key == key
  {
    if KeyIn(lines, key) {
      var i :| 0 <= i < |lines| && lines[i].key == key;
      assert (lines + [l])[i].key == key;
    }
    assert (lines + [l])[|lines|] == l;
  }

  /** One more line replaces the earlier ones with its key. */
  lemma {:induction false} OneMoreLine(t: Tables, lines: seq<Line>, l: Line)
    ensures Survivors(t, lines + [l]) ==
      (if l.key in t.appends then Survivors(t, lines) else Without(Survivors(t, lines), l.key)) + [ItemOf(t, l)]
  {
    if lines == [] {
      assert lines + [l] == [l] && [l][1..] == [];
    } else {
      var first, rest := lines[0], lines[1..];
      assert (lines + [l])[1..] == rest + [l];
      OneMoreLine(t, rest, l);
      KeyInAppend(rest, l, first.key);
      hide KeyIn;
      var i, s := ItemOf(t, first), Survivors(t, rest);
      if !Stands(t, first, rest) {
        assert Survivors(t, lines) == s && Survivors(t, lines + [l]) == Survivors(t, rest + [l]);
      } else {
        assert Survivors(t, lines) == [i] + s;
        WithoutFirst(i, s, l.key);
        if Stands(t, first, rest + [l]) {
          assert Survivors(t, lines + [l]) == [i] + Survivors(t, rest + [l]);
        } else {
          assert Survivors(t, lines + [l]) == Survivors(t, rest + [l]);
        }
      }
    }
  }

  lemma WithoutFirst(i: Item, rest: seq<Item>, key: string)
    ensures Without([i] + rest, key) == (if Names(i, key) then [] else [i]) + Without(rest, key)
  {
    assert ([i] + rest)[1..] == rest;
  }

  lemma AddLineFlatten(t: Tables, kept: seq<Item>, l: Line)
    requires Tidy(kept)
    ensures AddLine(t, Flatten(kept), l).Some? <==> LineTokens(t, l).Some?
    ensures LineTokens(t, l).Some? ==>
      AddLine(t, Flatten(kept), l).value ==
        Flatten((if l.key in t.appends then kept else Without(kept, l.key)) + [ItemOf(t, l)])
  {
    hide Strip;
    StripFlatten(kept, l.key);
    var base, i := if l.key in t.appends then kept else Without(kept, l.key), ItemOf(t, l);
    FlattenAppend(base, [i]);
    assert [i][1..] == [];
    assert Flatten([i]) == Tokens(i) + Flatten([]);
    assert LineTokens(t, l).Some? ==> LineTokens(t, l).value == Tokens(i);
  }

  /** When no value starts with a dash, the merged file is exactly the lines that stand, in their order. */
  lemma {:induction false} LastLineWins(t: Tables, lines: seq<Line>)
    requires Named(t) && NoDashes(lines) && FileTokens(t, lines).Some?
    ensures FileTokens(t, lines).value == Flatten(Survivors(t, lines))
  {
    if lines != [] {
      var n := |lines| - 1;
      var before, l := lines[..n], lines[n];
      assert before + [l] == lines;
      assert FileTokens(t, before).Some? && FileTokens(t, lines) == AddLine(t, FileTokens(t, before).value, l);
      hide Survivors, FileTokens, AddLine, LineTokens, ItemOf, Without, Flatten, TidyItem, Dash;
      LastLineWins(t, before);
      OneMoreLine(t, before, l);
      ErrorsAreLines(t, before);
      SurvivorsTidy(t, before);
      AddLineFlatten(t, Survivors(t, before), l);
    }
  }

  // ------------------------------------------------------------------------
  // The command line overrides
  // ------------------------------------------------------------------------

  function WithoutAll(items: seq<Item>, keys: set<string>): seq<Item> {
    if items == [] then []
    else (if !items[0].ModeFlag? && items[0].key in keys then [] else [items[0]]) + WithoutAll(items[1..], keys)
  }

  function NoModes(items: seq<Item>): seq<Item> {
    if items == [] then [] else (if items[0].ModeFlag? then [] else [items[0]]) + NoModes(items[1..])
  }

  function DropModeTokens(ts: seq<string>): seq<string> {
    if ts == [] then [] else (if ts[0] == "-c" || ts[0] == "-s" then [] else [ts[0]]) + DropModeTokens(ts[1..])
  }

  /** Removing one more key is removing the larger set: the order of removal cannot matter. */
  lemma {:induction false} WithoutMore(items: seq<Item>, keys: set<string>, key: string)
    ensures Without(WithoutAll(items, keys), key) == WithoutAll(items, keys + {key})
  {
    if items != [] {
      var i, rest := items[0], items[1..];
      WithoutMore(rest, keys, key);
      if !i.ModeFlag? && i.key in keys {
        assert WithoutAll(items, keys) == WithoutAll(rest, keys);
      } else {
        WithoutFirst(i, WithoutAll(rest, keys), key);
      }
    }
  }

  /** The options of a list, and stripping them one after the other. */
  function Keys(order: seq<string>): set<string> { set k | k in order }

  function StripAll(ts: seq<string>, order: seq<string>): seq<string> {
    if order == [] then ts else Strip(StripAll(ts, order[..|order| - 1]), order[|order| - 1])
  }

  lemma OneMoreKey(order: seq<string>, key: string)
    ensures Keys(order + [key]) == Keys(order) + {key}
  {
  }

  /** On tidy items every order of removal leaves the same tokens. */
  lemma {:induction false} OrderIsIrrelevant(items: seq<Item>, order: seq<string>)
    requires Tidy(items)
    ensures StripAll(Flatten(items), order) == Flatten(WithoutAll(items, Keys(order)))
  {
    if order == [] {
      WithoutNone(items);
      assert Keys(order) == {};
    } else {
      var before, key := order[..|order| - 1], order[|order| - 1];
      OrderIsIrrelevant(items, before);
      hide Strip, Flatten, Without, WithoutAll, Keys, TidyItem;
      WithoutAllTidy(items, Keys(before));
      StripFlatten(WithoutAll(items, Keys(before)), key);
      WithoutMore(items, Keys(before), key);
      OneMoreKey(before, key);
      assert before + [key] == order;
    }
  }

  lemma {:induction false} WithoutNone(items: seq<Item>)
    ensures WithoutAll(items, {}) == items
  {
    if items != [] { WithoutNone(items[1..]); }
  }

  lemma {:induction false} WithoutAllTidy(items: seq<Item>, keys: set<string>)
    requires Tidy(items)
    ensures Tidy(WithoutAll(items, keys))
  {
    if items != [] { WithoutAllTidy(items[1..], keys); }
  }

  lemma DropModesCons(x: string, ts: seq<string>)
    ensures DropModeTokens([x] + ts) == (if x == "-c" || x == "-s" then [] else [x]) + DropModeTokens(ts)
  {
    assert ([x] + ts)[1..] == ts;
  }

  lemma DropModesItem(i: Item, ts: seq<string>)
    requires TidyItem(i)
    ensures DropModeTokens(Tokens(i) + ts) == (if i.ModeFlag? then [] else Tokens(i)) + DropModeTokens(ts)
  {
    hide DropModeTokens;
    match i
    case ModeFlag(f) => DropModesCons(f, ts);
    case Switch(k) =>
      BareIsNoMode(k);
      DropModesCons(Bare(k), ts);
    case Opt(k, v) =>
      BareIsNoMode(k);
      assert [Bare(k), v] + ts == [Bare(k)] + ([v] + ts);
      DropModesCons(Bare(k), [v] + ts);
      DropModesCons(v, ts);
      assert [Bare(k)] + ([v] + DropModeTokens(ts)) == [Bare(k), v] + DropModeTokens(ts);
  }

  lemma {:induction false} DropModesFlatten(items: seq<Item>)
    requires Tidy(items)
    ensures DropModeTokens(Flatten(items)) == Flatten(NoModes(items))
  {
    if items != [] {
      var i, rest := items[0], items[1..];
      assert TidyItem(i) && Tidy(rest);
      DropModesFlatten(rest);
      hide DropModeTokens, Tokens, TidyItem;
      DropModesItem(i, Flatten(rest));
      if i.ModeFlag? {
        assert NoModes(items) == NoModes(rest);
      } else {
        assert NoModes(items) == [i] + NoModes(rest);
      }
    }
  }

  lemma BareIsNoMode(key: string)
    ensures Bare(key) != "-c" && Bare(key) != "-s"
  {
    assert Bare(key)[1] == '-';
  }

  /** What of the file reaches the merged command line. */
  function Effective(t: Tables, lines: seq<Line>, cli: seq<string>): seq<Item> {
    var items := WithoutAll(Survivors(t, lines), CliKeys(t, cli));
    if CliMode(cli) then NoModes(items) else items
  }

  /** A file line wins when it stands in the file and the command line does not name its option. */
  predicate Wins(t: Tables, lines: seq<Line>, cli: seq<string>, i: nat)
    requires i < |lines|
  {
    && Stands(t, lines[i], lines[i + 1..])
    && (if lines[i].key == MODE then !CliMode(cli) else lines[i].key !in CliKeys(t, cli))
  }

  function Winners(t: Tables, lines: seq<Line>, cli: seq<string>, from: nat): seq<Item>
    requires from <= |lines|
    decreases |lines| - from
  {
    if from == |lines| then []
    else (if Wins(t, lines, cli, from) then [ItemOf(t, lines[from])] else []) + Winners(t, lines, cli, from + 1)
  }

  lemma {:induction false} EffectiveFrom(t: Tables, lines: seq<Line>, cli: seq<string>, from: nat)
    requires from <= |lines|
    ensures Effective(t, lines[from..], cli) == Winners(t, lines, cli, from)
    decreases |lines| - from
  {
    if from < |lines| {
      EffectiveFrom(t, lines, cli, from + 1);
      var first, rest := lines[from], lines[from..][1..];
      assert rest == lines[from + 1..];
      hide CliKeys, CliMode, Stands, KeyIn;
      var i, more := ItemOf(t, first), Survivors(t, rest);
      if Stands(t, first, rest) {
        assert Survivors(t, lines[from..]) == [i] + more;
        FirstItem(i, more, CliKeys(t, cli));
      } else {
        assert Survivors(t, lines[from..]) == more;
      }
    }
  }

  lemma FirstItem(i: Item, more: seq<Item>, keys: set<string>)
    ensures
      var gone := !i.ModeFlag? && i.key in keys;
      && WithoutAll([i] + more, keys) == (if gone then [] else [i]) + WithoutAll(more, keys)
      && NoModes(WithoutAll([i] + more, keys)) ==
           (if gone || i.ModeFlag? then [] else [i]) + NoModes(WithoutAll(more, keys))
  {
    assert ([i] + more)[1..] == more;
    var kept := WithoutAll(more, keys);
    assert ([i] + kept)[1..] == kept && [] + kept == kept;
  }

  /** The merged file arguments are exactly the winning lines, in their order. */
  lemma EffectiveIsWinners(t: Tables, lines: seq<Line>, cli: seq<string>)
    ensures Effective(t, lines, cli) == Winners(t, lines, cli, 0)
  {
    EffectiveFrom(t, lines, cli, 0);
    assert lines[0..] == lines;
  }

  lemma StandsAlone(t: Tables, lines: seq<Line>, i: nat, j: nat)
    requires i < j < |lines| && Stands(t, lines[i], lines[i + 1..]) && lines[i].key !in t.appends && lines[i].key != MODE
    ensures lines[i].key != lines[j].key
  {
    assert lines[i + 1..][j - i - 1] == lines[j];
  }

  /** No two winning lines share an option, unless it is an append option or the mode. */
  lemma EachOptionOnce(t: Tables, lines: seq<Line>, cli: seq<string>, i: nat, j: nat)
    requires i < |lines| && j < |lines| && Wins(t, lines, cli, i) && Wins(t, lines, cli, j)
    requires lines[i].key == lines[j].key && lines[i].key !in t.appends && lines[i].key != MODE
    ensures i == j && lines[i].key !in CliKeys(t, cli)
  {
    if i < j { StandsAlone(t, lines, i, j); }
    if j < i { StandsAlone(t, lines, j, i); }
  }

  /** An option the command line does not name keeps the value of its last line. */
  lemma LastLineReaches(t: Tables, lines: seq<Line>, cli: seq<string>, i: nat)
    requires i < |lines| && lines[i].key != MODE && lines[i].key !in CliKeys(t, cli)
    requires lines[i].key in t.appends || forall j :: i < j < |lines| ==> lines[j].key != lines[i].key
    ensures Wins(t, lines, cli, i)
  {
    var later := lines[i + 1..];
    if KeyIn(later, lines[i].key) {
      var j :| 0 <= j < |later| && later[j].key == lines[i].key;
      assert later[j] == lines[i + 1 + j];
    }
  }

  /** Repeated mode lines both stay: the last one does not win. */
  lemma ModesPileUp(t: Tables)
    requires Named(t)
    ensures FileTokens(t, [Line(MODE, Some("server")), Line(MODE, Some("client"))]) == Some(["-s", "-c"])
  {
    var a, b := Line(MODE, Some("server")), Line(MODE, Some("client"));
    assert "client"[0] != "server"[0];
    TwoLines(t, a, b);
    ModeIsKept("-s", MODE);
    StripOne([], MODE, "-s");
    assert ["-s"] + [] == ["-s"] && [] + ["-s"] == ["-s"] && ["-s"] + ["-c"] == ["-s", "-c"];
    assert LineTokens(t, a) == Some(["-s"]) && LineTokens(t, b) == Some(["-c"]);
  }

  lemma TwoLines(t: Tables, a: Line, b: Line)
    ensures
      var first := AddLine(t, [], a);
      FileTokens(t, [a, b]) == if first.None? then None else AddLine(t, first.value, b)
  {
    var two, one := [a, b], [a];
    assert two[..1] == one && one[..0] == [];
    assert FileTokens(t, one[..0]) == Some([]);
    assert FileTokens(t, one) == AddLine(t, [], a);
  }

  /** A value that starts with a dash is left behind when its option is replaced. */
  lemma DashValueStays(t: Tables, key: string, v: string)
    requires Named(t) && key in t.longs && key !in t.bools && key !in t.appends && key != MODE
    requires Dash(v) && v != Bare(key) && !(Inline(key) <= v)
    ensures FileTokens(t, [Line(key, Some(v)), Line(key, Some("x"))]) == Some([v, Bare(key), "x"])
  {
    TwoLines(t, Line(key, Some(v)), Line(key, Some("x")));
    assert [] + [Bare(key), v] == [Bare(key)] + [v] && [v] + [] == [v];
    StripOccurrence([v], key, Bare(key));
    StripOne([], key, v);
    assert [v] + [Bare(key), "x"] == [v, Bare(key), "x"];
  }

  // ------------------------------------------------------------------------
  // The program: argument vectors edited in place
  // ------------------------------------------------------------------------

  /** `Vec::remove`. */
  function Removed(ts: seq<string>, j: nat): (r: seq<string>)
    requires j < |ts|
    ensures |r| == |ts| - 1
  {
    ts[..j] + ts[j + 1..]
  }

  /** What is settled up to j, and what stripping leaves of the rest. */
  function Progress(ts: seq<string>, j: nat, key: string): seq<string>
    requires j <= |ts|
  {
    ts[..j] + Strip(ts[j..], key)
  }

  lemma StripFrom(ts: seq<string>, key: string)
    ensures Progress(ts, 0, key) == Strip(ts, key)
  {
    assert ts[0..] == ts;
  }

  lemma StripDone(ts: seq<string>, key: string)
    ensures Progress(ts, |ts|, key) == ts
  {
  }

  lemma RemovedParts(ts: seq<string>, j: nat)
    requires j < |ts|
    ensures Removed(ts, j)[..j] == ts[..j] && Removed(ts, j)[j..] == ts[j + 1..] == ts[j..][1..]
  {
  }

  lemma StripAtBare(ts: seq<string>, j: nat, key: string)
    requires j < |ts| && ts[j] == Bare(key)
    ensures
      var r := Removed(ts, j);
      Progress(ts, j, key) == Progress(if j < |r| && !Dash(r[j]) then Removed(r, j) else r, j, key)
  {
    hide Bare, Inline, Dash;
    var r := Removed(ts, j);
    RemovedParts(ts, j);
    if j < |r| {
      RemovedParts(r, j);
      assert ts[j..][2..] == ts[j..][1..][1..];
    }
  }

  lemma StripAtInline(ts: seq<string>, j: nat, key: string)
    requires j < |ts| && ts[j] != Bare(key) && Inline(key) <= ts[j]
    ensures Progress(ts, j, key) == Progress(Removed(ts, j), j, key)
  {
    hide Bare, Inline, Dash;
    RemovedParts(ts, j);
  }

  lemma StripPast(ts: seq<string>, j: nat, key: string)
    requires j < |ts| && ts[j] != Bare(key) && !(Inline(key) <= ts[j])
    ensures Progress(ts, j, key) == Progress(ts, j + 1, key)
  {
    hide Bare, Inline, Dash;
    assert ts[j..][1..] == ts[j + 1..] && ts[..j + 1] == ts[..j] + [ts[j]];
  }

  class Argv {
    var tokens: seq<string>

    constructor ()
      ensures tokens == []
    {
      tokens := [];
    }

    /** `remove_earlier_option`. */
    method RemoveEarlier(key: string)
      modifies this
      ensures tokens == Strip(old(tokens), key)
    {
      hide Strip, Bare, Inline, Dash;
      ghost var all := tokens;
      var j := 0;
      StripFrom(tokens, key);
      while j < |tokens|
        invariant 0 <= j <= |tokens| && Progress(tokens, j, key) == Strip(all, key)
        decreases |tokens| - j
      {
        if tokens[j] == Bare(key) {
          StripAtBare(tokens, j, key);
          tokens := Removed(tokens, j);
          if j < |tokens| && !Dash(tokens[j]) {
            tokens := Removed(tokens, j);
          }
        } else if Inline(key) <= tokens[j] {
          StripAtInline(tokens, j, key);
          tokens := Removed(tokens, j);
        } else {
          StripPast(tokens, j, key);
          j := j + 1;
        }
      }
      StripDone(tokens, key);
    }

    /** `parse_config_file`, from its lines. */
    method ParseFile(t: Tables, lines: seq<Line>) returns (ok: bool)
      requires tokens == []
      modifies this
      ensures ok == FileTokens(t, lines).Some? && (ok ==> tokens == FileTokens(t, lines).value)
    {
      for i := 0 to |lines|
        invariant FileTokens(t, lines[..i]) == Some(tokens)
      {
        var l := lines[i];
        assert lines[..i + 1][..i] == lines[..i];
        if l.key !in t.longs {
          FailureStays(t, lines, i + 1);
          return false;
        }
        if l.key !in t.appends {
          RemoveEarlier(l.key);
        }
        var own := LineTokens(t, l);
        if own.None? {
          FailureStays(t, lines, i + 1);
          return false;
        }
        tokens := tokens + own.value;
      }
      assert lines[..|lines|] == lines;
      return true;
    }

    /** `strip_cli_overridden`: the override keys go in whatever order the set yields them. */
    method StripOverridden(t: Tables, cli: seq<string>) returns (ghost order: seq<string>)
      modifies this
      ensures Keys(order) == CliKeys(t, cli)
      ensures
        var ts := StripAll(old(tokens), order);
        tokens == if CliMode(cli) then DropModeTokens(ts) else ts
    {
      var keys := FindKeys(t, cli);
      order := [];
      while keys != {}
        invariant keys + Keys(order) == CliKeys(t, cli) && tokens == StripAll(old(tokens), order)
        decreases keys
      {
        hide CliKeys, Strip;
        var key :| key in keys;
        RemoveEarlier(key);
        OneMoreKey(order, key);
        assert (order + [key])[..|order|] == order;
        keys, order := keys - {key}, order + [key];
      }
      if "-c" in cli || "-s" in cli {
        RetainNoModes();
      }
    }

    method RetainNoModes()
      modifies this
      ensures tokens == DropModeTokens(old(tokens))
    {
      var out: seq<string> := [];
      for i := 0 to |tokens|
        invariant tokens == old(tokens) && out + DropModeTokens(tokens[i..]) == DropModeTokens(tokens)
      {
        assert tokens[i..][1..] == tokens[i + 1..];
        if tokens[i] != "-c" && tokens[i] != "-s" {
          out := out + [tokens[i]];
        }
      }
      tokens := out;
    }
  }

  lemma {:induction false} FailureStays(t: Tables, lines: seq<Line>, n: nat)
    requires n <= |lines| && FileTokens(t, lines[..n]).None?
    ensures FileTokens(t, lines).None?
    decreases |lines|
  {
    if n < |lines| {
      var before := lines[..|lines| - 1];
      assert before[..n] == lines[..n];
      FailureStays(t, before, n);
    } else {
      assert lines[..n] == lines;
    }
  }

  /** The scan of the command line skips values, and loses no option by it. */
  method FindKeys(t: Tables, cli: seq<string>) returns (keys: set<string>)
    ensures keys == CliKeys(t, cli)
  {
    keys := {};
    var i := 0;
    while i < |cli|
      invariant 0 <= i <= |cli| && keys == CliKeys(t, cli[..i])
      decreases |cli| - i
    {
      OneMoreToken(t, cli, i);
      if "--" <= cli[i] {
        var rest := cli[i][2..];
        var key := rest[..KeyEnd(rest)];
        if key in t.longs && key !in t.appends {
          keys := keys + {key};
          if KeyEnd(rest) < |rest| || key in t.bools || rest == "" {
            i := i + 1;
            continue;
          }
          if i + 1 < |cli| && !Dash(cli[i + 1]) {
            OneMoreToken(t, cli, i + 1);
            i := i + 2;
            continue;
          }
        }
      }
      i := i + 1;
    }
    assert cli[..|cli|] == cli;
  }

  function KeyOf(t: Tables, a: string): set<string> {
    if !("--" <= a) then {}
    else
      var k := a[2..][..KeyEnd(a[2..])];
      if k in t.longs && k !in t.appends then {k} else {}
  }

  lemma OneMoreToken(t: Tables, cli: seq<string>, i: nat)
    requires i < |cli|
    ensures CliKeys(t, cli[..i + 1]) == CliKeys(t, cli[..i]) + KeyOf(t, cli[i])
  {
    assert cli[..i + 1] == cli[..i] + [cli[i]];
  }

  /** File and command line together. Without values that start with a dash, the arguments of the file that remain are
      exactly the winning lines. */
  method Merge(t: Tables, lines: seq<Line>, cli: seq<string>) returns (argv: Option<seq<string>>)
    requires Named(t)
    ensures argv.Some? <==> forall i :: 0 <= i < |lines| ==> LineTokens(t, lines[i]).Some?
    ensures argv.Some? ==> |argv.value| >= |cli| && argv.value[|argv.value| - |cli|..] == cli
    ensures argv.Some? && NoDashes(lines) ==> argv.value == Flatten(Winners(t, lines, cli, 0)) + cli
  {
    var file := new Argv();
    var ok := file.ParseFile(t, lines);
    ErrorsAreLines(t, lines);
    if !ok {
      return None;
    }
    ghost var order := file.StripOverridden(t, cli);
    if NoDashes(lines) { MergedIsWinners(t, lines, cli, order); }
    return Some(file.tokens + cli);
  }

  lemma MergedIsWinners(t: Tables, lines: seq<Line>, cli: seq<string>, order: seq<string>)
    requires Named(t) && NoDashes(lines) && FileTokens(t, lines).Some? && Keys(order) == CliKeys(t, cli)
    ensures
      var ts := StripAll(FileTokens(t, lines).value, order);
      (if CliMode(cli) then DropModeTokens(ts) else ts) == Flatten(Winners(t, lines, cli, 0))
  {
    hide Survivors, Winners, CliKeys, CliMode, FileTokens, Flatten, Keys, WithoutAll, TidyItem, LineTokens, Dash;
    var items := Survivors(t, lines);
    LastLineWins(t, lines);
    ErrorsAreLines(t, lines);
    SurvivorsTidy(t, lines);
    OrderIsIrrelevant(items, order);
    WithoutAllTidy(items, Keys(order));
    DropModesFlatten(WithoutAll(items, Keys(order)));
    EffectiveIsWinners(t, lines, cli);
  }

  lemma {:induction false} ErrorsAreLines(t: Tables, lines: seq<Line>)
    ensures FileTokens(t, lines).Some? <==> forall i :: 0 <= i < |lines| ==> LineTokens(t, lines[i]).Some?
  {
    if lines != [] {
      var n := |lines| - 1;
      ErrorsAreLines(t, lines[..n]);
      assert forall i :: 0 <= i < n ==> lines[..n][i] == lines[i];
    }
  }
}
