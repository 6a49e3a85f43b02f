/** The helpers of the `hpi` command line that carry logic of their own:
    indenting diagnostic output, the one-key menu, completion of module
    names, the choice of modules `doctor` checks, and the rewriting of the
    `query` options. */
module Cli {
  import opened Streams
  import opened Text

  // ---------------------------------------------------------------------
  // indent

  /** The characters `str.splitlines` ends a line at. */
  predicate IsLineBreak(c: char)
  {
    c as int in {10, 11, 12, 13, 28, 29, 30, 133, 0x2028, 0x2029}
  }

  /** The length of the first line of `s`, its line ending included
      (`\r\n` is one ending). */
  function LineLen(s: string): (n: nat)
    requires s != []
    ensures 1 <= n <= |s|
    decreases |s|
  {
    if IsLineBreak(s[0]) then (if s[0] == '\r' && |s| > 1 && s[1] == '\n' then 2 else 1)
    else if |s| == 1 then 1
    else 1 + LineLen(s[1..])
  }

  /** `s.splitlines(keepends=True)`. */
  function SplitLines(s: string): (r: seq<string>)
    ensures forall i :: 0 <= i < |r| ==> r[i] != []
    decreases |s|
  {
    if s == [] then [] else [s[..LineLen(s)]] + SplitLines(s[LineLen(s)..])
  }

  const Margin := "   "

  function Prefixed(l: string): string
  {
    Margin + l
  }

  /** `indent(x)`: every line of `x`, line ending kept, after three spaces. */
  function Indent(x: string): string
  {
    Flatten(MapSeq(SplitLines(x), Prefixed))
  }

  /** The lines, put back together, are the input. */
  lemma {:induction false} SplitLinesFlatten(s: string)
    ensures Flatten(SplitLines(s)) == s
    decreases |s|
  {
    if s != [] {
      var n := LineLen(s);
      SplitLinesFlatten(s[n..]);
      assert s == s[..n] + s[n..];
    }
  }

  /** One line of `x` at a time. */
  lemma IndentUnfold(x: string)
    requires x != []
    ensures Indent(x) == Prefixed(x[..LineLen(x)]) + Indent(x[LineLen(x)..])
  {
    var n := LineLen(x);
    var ls := SplitLines(x);
    assert ls == [x[..n]] + SplitLines(x[n..]);
    assert MapSeq(ls, Prefixed) == [Prefixed(x[..n])] + MapSeq(SplitLines(x[n..]), Prefixed);
  }

  lemma IndentEmpty()
    ensures Indent("") == ""
  {
  }

  /** An indented text is empty or starts with a space. */
  lemma IndentStart(x: string)
    ensures Indent(x) == [] || Indent(x)[0] == ' '
  {
    if x != [] {
      IndentUnfold(x);
    }
  }

  /** Characters that end no line do not change where the next line ends. */
  lemma {:induction false} LineLenAfterPlain(p: string, s: string)
    requires s != []
    requires forall k :: 0 <= k < |p| ==> !IsLineBreak(p[k])
    ensures LineLen(p + s) == |p| + LineLen(s)
    decreases |p|
  {
    if p != [] {
      assert (p + s)[0] == p[0] && !IsLineBreak(p[0]);
      assert (p + s)[1..] == p[1..] + s;
      LineLenAfterPlain(p[1..], s);
    } else {
      assert p + s == s;
    }
  }

  /** The first line of `l + t` is `l`; it is still the first line when
      `t` is replaced by text that neither starts with `\n` (a lone `\r`
      ending `l` stays one ending) nor appears where `t` was empty. */
  lemma {:induction false} LineLenStable(l: string, t: string, u: string)
    requires l != [] && LineLen(l + t) == |l|
    requires t == [] ==> u == []
    requires u == [] || u[0] != '\n'
    ensures LineLen(l + u) == |l|
    decreases |l|
  {
    var s := l + t;
    assert s[0] == l[0] && (l + u)[0] == l[0];
    if !IsLineBreak(l[0]) && |s| > 1 {
      assert s[1..] == l[1..] + t;
      if l[1..] != [] {
        assert (l + u)[1..] == l[1..] + u;
        LineLenStable(l[1..], t, u);
      }
    }
  }

  /** Three spaces before a line that ends where `u` begins. */
  lemma MarginLine(l: string, u: string)
    requires l != [] && LineLen(l + u) == |l|
    ensures LineLen(Margin + (l + u)) == |Margin| + |l|
    ensures (Margin + (l + u))[..|Margin| + |l|] == Prefixed(l)
    ensures (Margin + (l + u))[|Margin| + |l|..] == u
  {
    LineLenAfterPlain(Margin, l + u);
  }

  /** The first line of `indent(x)` is the first line of `x`, prefixed,
      and the rest is the indented rest of `x`. */
  lemma IndentFirstLine(x: string)
    requires x != []
    ensures Indent(x) != [] && LineLen(Indent(x)) == |Margin| + LineLen(x)
    ensures Indent(x)[..|Margin| + LineLen(x)] == Prefixed(x[..LineLen(x)])
    ensures Indent(x)[|Margin| + LineLen(x)..] == Indent(x[LineLen(x)..])
  {
    var n := LineLen(x);
    var l, t := x[..n], x[n..];
    assert x == l + t;
    IndentUnfold(x);
    IndentStart(t);
    LineLenStable(l, t, Indent(t));
    AppendAssoc(Margin, l, Indent(t));
    MarginLine(l, Indent(t));
  }

  /** The lines of the indented text are the lines of the text, each
      prefixed: indenting keeps every line ending where it was. */
  lemma {:induction false} IndentLines(x: string)
    ensures SplitLines(Indent(x)) == MapSeq(SplitLines(x), Prefixed)
    decreases |x|
  {
    if x != [] {
      var n := LineLen(x);
      var t := x[n..];
      IndentFirstLine(x);
      IndentLines(t);
      assert SplitLines(x) == [x[..n]] + SplitLines(t);
      assert MapSeq(SplitLines(x), Prefixed) == [Prefixed(x[..n])] + MapSeq(SplitLines(t), Prefixed);
    }
  }

  /** Indenting keeps the number of lines. */
  lemma IndentLineCount(x: string)
    ensures |SplitLines(Indent(x))| == |SplitLines(x)|
  {
    IndentLines(x);
  }

  /** The three spaces removed from every line. */
  function Unprefixed(l: string): string
  {
    if |l| >= |Margin| then l[|Margin|..] else l
  }

  /** Taking the three spaces off every line of `indent(x)` gives `x` back. */
  lemma IndentRoundTrip(x: string)
    ensures Flatten(MapSeq(SplitLines(Indent(x)), Unprefixed)) == x
  {
    IndentLines(x);
    var ls := SplitLines(x);
    assert MapSeq(MapSeq(ls, Prefixed), Unprefixed) == ls;
    SplitLinesFlatten(x);
  }

  // ---------------------------------------------------------------------
  // _ui_getchar_pick

  /** A Python string as its code points (a key press, a menu key). */
  type Key = seq<int>

  const MaxCodePoint := 0x10FFFF

  /** `ord('a') - 10`. */
  const ChrOffset := 97 - 10

  /** The key for the 1-based position `i`: `str(i)` below ten, then
      `chr(i + ord('a') - 10)`, so `a` for 10, `b` for 11 and so on. */
  function KeyFor(i: nat): (k: Key)
    requires 1 <= i
  {
    if i < 10 then [48 + i] else [i + ChrOffset]
  }

  /** Different positions get different keys. */
  lemma KeyForInjective(i: nat, j: nat)
    requires 1 <= i && 1 <= j
    ensures KeyFor(i) == KeyFor(j) <==> i == j
  {
    if KeyFor(i) == KeyFor(j) {
      assert KeyFor(i)[0] == KeyFor(j)[0];
    }
  }

  /** `result_map` after the first `n` choices. */
  function KeyMap(n: nat): map<Key, nat>
  {
    if n == 0 then map[] else KeyMap(n - 1)[KeyFor(n) := n - 1]
  }

  /** The keys are those of the positions `1..n`, and each leads to its
      position's 0-based index. */
  lemma {:induction false} KeyMapFacts(n: nat)
    ensures forall k :: k in KeyMap(n) <==> exists i :: 1 <= i <= n && KeyFor(i) == k
    ensures forall i :: 1 <= i <= n ==> KeyFor(i) in KeyMap(n) && KeyMap(n)[KeyFor(i)] == i - 1
    ensures forall k | k in KeyMap(n) :: KeyMap(n)[k] < n
  {
    if n > 0 {
      KeyMapFacts(n - 1);
      forall i | 1 <= i <= n
        ensures KeyFor(i) in KeyMap(n) && KeyMap(n)[KeyFor(i)] == i - 1
      {
        KeyForInjective(i, n);
      }
      forall k | k in KeyMap(n)
        ensures exists i :: 1 <= i <= n && KeyFor(i) == k
      {
        if k != KeyFor(n) {
          var i :| 1 <= i <= n - 1 && KeyFor(i) == k;
        }
      }
    }
  }

  /** No two keys lead to the same choice, and every choice has a key. */
  lemma KeyMapBijective(n: nat)
    ensures forall k1, k2 | k1 in KeyMap(n) && k2 in KeyMap(n) :: KeyMap(n)[k1] == KeyMap(n)[k2] ==> k1 == k2
    ensures forall v :: v in KeyMap(n).Values <==> 0 <= v < n
  {
    KeyMapFacts(n);
    forall v | 0 <= v < n ensures v in KeyMap(n).Values {
      assert KeyMap(n)[KeyFor(v + 1)] == v;
    }
    forall k1, k2 | k1 in KeyMap(n) && k2 in KeyMap(n) && KeyMap(n)[k1] == KeyMap(n)[k2]
      ensures k1 == k2
    {
      var i1 :| 1 <= i1 <= n && KeyFor(i1) == k1;
      var i2 :| 1 <= i2 <= n && KeyFor(i2) == k2;
    }
  }

  /** The first position whose key `chr` cannot build (a code point past
      U+10FFFF). */
  const FirstBadPosition := MaxCodePoint + 1 - ChrOffset

  const NoChoicesMessage := "Didnt receive any choices to prompt!"
  const ChrRangeMessage := "chr() arg not in range(0x110000)"

  /** What `_ui_getchar_pick` returns after the key presses `presses`: the
      chosen index, `None` while it is still waiting for a valid key, or
      the exception raised. */
  function PickSpec(n: nat, presses: seq<Key>): Result<Option<nat>>
  {
    if n == 0 then Err(Error(AssertionError, NoChoicesMessage))
    else if n >= FirstBadPosition then Err(Error(ValueError, ChrRangeMessage))
    else FirstKnown(KeyMap(n), presses)
  }

  /** The value of the first press that is a key of `m`. */
  function FirstKnown(m: map<Key, nat>, presses: seq<Key>): Result<Option<nat>>
  {
    if presses == [] then Ok(None)
    else if presses[0] in m then Ok(Some(m[presses[0]]))
    else FirstKnown(m, presses[1..])
  }

  /** The key that leads to a choice is the one `KeyFor` gives its
      position. */
  lemma KeyOfChoice(n: nat, k: Key)
    requires k in KeyMap(n)
    ensures KeyMap(n)[k] < n && k == KeyFor(KeyMap(n)[k] + 1)
  {
    KeyMapFacts(n);
    var i :| 1 <= i <= n && KeyFor(i) == k;
  }

  /** With some choices and all of their keys buildable, the menu never
      raises, and it has answered exactly when one of its keys has been
      pressed. */
  lemma {:induction false} PickSpecChoice(n: nat, presses: seq<Key>)
    requires 0 < n < FirstBadPosition
    ensures PickSpec(n, presses).Ok?
    ensures PickSpec(n, presses).value.Some? <==> exists j :: 0 <= j < |presses| && presses[j] in KeyMap(n)
  {
    FirstKnownFacts(KeyMap(n), presses);
  }

  /** The index chosen is a valid one, and it is the one whose key was
      the first valid key pressed. */
  lemma {:induction false} PickSpecKey(n: nat, presses: seq<Key>, v: nat)
    requires PickSpec(n, presses) == Ok(Some(v))
    ensures v < n
    ensures exists j :: 0 <= j < |presses| && presses[j] == KeyFor(v + 1)
                        && forall j' :: 0 <= j' < j ==> presses[j'] !in KeyMap(n)
  {
    var m := KeyMap(n);
    FirstKnownFacts(m, presses);
    var j :| 0 <= j < |presses| && presses[j] in m && m[presses[j]] == v
             && forall j' :: 0 <= j' < j ==> presses[j'] !in m;
    KeyOfChoice(n, presses[j]);
  }

  lemma {:induction false} FirstKnownFacts(m: map<Key, nat>, presses: seq<Key>)
    ensures FirstKnown(m, presses).Ok?
    ensures FirstKnown(m, presses).value.Some? <==> exists j :: 0 <= j < |presses| && presses[j] in m
    ensures FirstKnown(m, presses).value.Some? ==>
              exists j :: 0 <= j < |presses| && presses[j] in m && m[presses[j]] == FirstKnown(m, presses).value.value
                          && forall j' :: 0 <= j' < j ==> presses[j'] !in m
  {
    if presses != [] && presses[0] !in m {
      FirstKnownFacts(m, presses[1..]);
      if exists j :: 0 <= j < |presses| && presses[j] in m {
        var j :| 0 <= j < |presses| && presses[j] in m;
        assert presses[1..][j - 1] == presses[j];
      }
      if FirstKnown(m, presses).value.Some? {
        var j :| 0 <= j < |presses[1..]| && presses[1..][j] in m && m[presses[1..][j]] == FirstKnown(m, presses).value.value
                 && forall j' :: 0 <= j' < j ==> presses[1..][j'] !in m;
        assert presses[j + 1] == presses[1..][j];
        forall j' | 0 <= j' < j + 1 ensures presses[j'] !in m {
          if j' > 0 { assert presses[j'] == presses[1..][j' - 1]; }
        }
      }
    } else if presses != [] {
      assert presses[0] in m;
    }
  }

  /** `_ui_getchar_pick(choices)` fed the key presses `presses`: builds the
      key map one choice at a time, then reads presses, skipping those
      that are no key, until one is. */
  method UiGetcharPick(choices: seq<string>, presses: seq<Key>) returns (r: Result<Option<nat>>)
    ensures r == PickSpec(|choices|, presses)
  {
    if |choices| == 0 {
      return Err(Error(AssertionError, NoChoicesMessage));
    }
    var resultMap: map<Key, nat> := map[];
    var i := 1;
    while i <= |choices|
      invariant 1 <= i <= |choices| + 1
      invariant i <= FirstBadPosition
      invariant resultMap == KeyMap(i - 1)
    {
      if i >= 10 && i + ChrOffset > MaxCodePoint {
        return Err(Error(ValueError, ChrRangeMessage));
      }
      resultMap := resultMap[KeyFor(i) := i - 1];
      i := i + 1;
    }
    var j := 0;
    while j < |presses|
      invariant 0 <= j <= |presses|
      invariant FirstKnown(resultMap, presses) == FirstKnown(resultMap, presses[j..])
    {
      assert presses[j..][1..] == presses[j + 1..];
      if presses[j] in resultMap {
        return Ok(Some(resultMap[presses[j]]));
      }
      j := j + 1;
    }
    return Ok(None);
  }

  // ---------------------------------------------------------------------
  // _all_mod_names and _module_autocomplete

  /** An `HPIModule`: its dotted name and why it is skipped, if it is. */
  datatype HpiModule = HpiModule(name: string, skipReason: Option<string>)

  /** Ordered for Python's `<` on strings. */
  predicate SortedStrings(s: seq<string>)
  {
    forall i, j :: 0 <= i < j < |s| ==> !LexLess(s[j], s[i])
  }

  /** `x` inserted before the first element that is not below it. */
  function InsertString(x: string, s: seq<string>): (r: seq<string>)
    ensures multiset(r) == multiset(s) + multiset{x}
  {
    if s == [] || !LexLess(s[0], x) then [x] + s
    else
      assert s == [s[0]] + s[1..];
      [s[0]] + InsertString(x, s[1..])
  }

  /** `sorted(names)`. */
  function SortStrings(s: seq<string>): (r: seq<string>)
    ensures multiset(r) == multiset(s)
  {
    if s == [] then []
    else
      assert s == [s[0]] + s[1..];
      InsertString(s[0], SortStrings(s[1..]))
  }

  /** Every element of a sorted sequence, and anything above its head,
      is not below that head. */
  lemma AboveHead(x: string, s: seq<string>, y: string)
    requires SortedStrings(s) && s != [] && LexLess(s[0], x)
    requires y in multiset(s[1..]) + multiset{x}
    ensures !LexLess(y, s[0])
  {
    if y == x {
      LexLessTotal(x, s[0]);
      if LexLess(x, s[0]) {
        LexLessTransitive(x, s[0], x);
        LexLessIrreflexive(x);
      }
    } else {
      assert y in s[1..];
      var k :| 0 <= k < |s[1..]| && s[1..][k] == y;
      assert s[k + 1] == y;
    }
  }

  /** When `x` is not above the head of a sorted sequence, it is not above
      any of its elements. */
  lemma BelowAll(x: string, s: seq<string>)
    requires SortedStrings(s) && s != [] && !LexLess(s[0], x)
    ensures forall k :: 0 <= k < |s| ==> !LexLess(s[k], x)
  {
    forall k | 0 <= k < |s| ensures !LexLess(s[k], x) {
      LexLessTotal(s[0], s[k]);
      if LexLess(s[k], x) && LexLess(s[0], s[k]) {
        LexLessTransitive(s[0], s[k], x);
      }
    }
  }

  lemma {:induction false} InsertStringSorted(x: string, s: seq<string>)
    requires SortedStrings(s)
    ensures SortedStrings(InsertString(x, s))
  {
    if s != [] && LexLess(s[0], x) {
      InsertStringSorted(x, s[1..]);
      var r := InsertString(x, s);
      var t := InsertString(x, s[1..]);
      assert r == [s[0]] + t;
      forall i, j | 0 <= i < j < |r| ensures !LexLess(r[j], r[i]) {
        if i == 0 {
          assert r[j] == t[j - 1] && t[j - 1] in multiset(t);
          AboveHead(x, s, r[j]);
        } else {
          assert r[i] == t[i - 1] && r[j] == t[j - 1];
        }
      }
    } else if s != [] {
      BelowAll(x, s);
    }
  }


  lemma {:induction false} SortStringsSorted(s: seq<string>)
    ensures SortedStrings(SortStrings(s))
  {
    if s != [] {
      SortStringsSorted(s[1..]);
      InsertStringSorted(s[0], SortStrings(s[1..]));
    }
  }

  function ModuleName(m: HpiModule): string { m.name }

  /** `_all_mod_names()`: the names of all modules, sorted. */
  function AllModNames(mods: seq<HpiModule>): seq<string>
  {
    SortStrings(MapSeq(mods, ModuleName))
  }

  /** `_module_autocomplete(ctx, args, incomplete)`. */
  function ModuleAutocomplete(mods: seq<HpiModule>, incomplete: string): seq<string>
  {
    Filter(AllModNames(mods), (m: string) => StartsWith(m, incomplete))
  }

  lemma {:induction false} FilterSorted(s: seq<string>, p: string -> bool)
    requires SortedStrings(s)
    ensures SortedStrings(Filter(s, p))
  {
    if s != [] {
      FilterSorted(s[1..], p);
      FilterSubset(s[1..], p);
      var r := Filter(s, p);
      if p(s[0]) {
        assert r == [s[0]] + Filter(s[1..], p);
        forall i, j | 0 <= i < j < |r| ensures !LexLess(r[j], r[i]) {
          if i == 0 {
            assert r[j] in Filter(s[1..], p);
            var k :| 0 <= k < |s[1..]| && s[1..][k] == r[j];
            assert s[k + 1] == r[j];
          } else {
            assert r[i] == Filter(s[1..], p)[i - 1];
          }
        }
      }
    }
  }

  /** Completion offers, in sorted order, every module name that starts
      with what was typed, as many times as it occurs among the modules,
      and nothing else. */
  lemma ModuleAutocompleteCharacterised(mods: seq<HpiModule>, incomplete: string)
    ensures SortedStrings(ModuleAutocomplete(mods, incomplete))
    ensures forall x :: x in ModuleAutocomplete(mods, incomplete) <==>
              StartsWith(x, incomplete) && exists m :: m in mods && m.name == x
    ensures forall x | StartsWith(x, incomplete) ::
              multiset(ModuleAutocomplete(mods, incomplete))[x] == multiset(MapSeq(mods, ModuleName))[x]
  {
    var names := MapSeq(mods, ModuleName);
    var p := (m: string) => StartsWith(m, incomplete);
    var r := ModuleAutocomplete(mods, incomplete);
    assert r == Filter(SortStrings(names), p);
    SortStringsSorted(names);
    FilterSorted(SortStrings(names), p);
    AutocompleteMembers(names, p);
    NamesOfModules(mods);
    forall x | StartsWith(x, incomplete) ensures multiset(r)[x] == multiset(names)[x] {
      FilterCount(SortStrings(names), p, x);
    }
  }

  /** Filtering the sorted names keeps exactly the names accepted. */
  lemma AutocompleteMembers(names: seq<string>, p: string -> bool)
    ensures forall x :: x in Filter(SortStrings(names), p) <==> p(x) && x in names
  {
    FilterSubset(SortStrings(names), p);
    assert forall x :: x in SortStrings(names) <==> x in multiset(SortStrings(names));
    assert forall x :: x in names <==> x in multiset(names);
  }

  /** A name occurs among the names of the modules exactly when some
      module has it. */
  lemma NamesOfModules(mods: seq<HpiModule>)
    ensures forall x :: x in MapSeq(mods, ModuleName) <==> exists m :: m in mods && m.name == x
  {
    var names := MapSeq(mods, ModuleName);
    forall x ensures x in names <==> exists m :: m in mods && m.name == x {
      if x in names {
        var i :| 0 <= i < |names| && names[i] == x;
        assert mods[i] in mods;
      }
      if exists m :: m in mods && m.name == x {
        var m :| m in mods && m.name == x;
        var i :| 0 <= i < |mods| && mods[i] == m;
        assert names[i] == x;
      }
    }
  }

  /** Filtering keeps every copy of an element the predicate accepts. */
  lemma {:induction false} FilterCount(s: seq<string>, p: string -> bool, x: string)
    requires p(x)
    ensures multiset(Filter(s, p))[x] == multiset(s)[x]
  {
    if s != [] {
      FilterCount(s[1..], p, x);
      assert s == [s[0]] + s[1..];
    }
  }

  // ---------------------------------------------------------------------
  // _modules and modules_check

  predicate Shown(all: bool, m: HpiModule)
  {
    all || m.skipReason.None?
  }

  function ShowFilter(all: bool): HpiModule -> bool
  {
    (m: HpiModule) => Shown(all, m)
  }

  function SkipFilter(all: bool): HpiModule -> bool
  {
    (m: HpiModule) => !Shown(all, m)
  }

  /** What `_modules(all=all)` yields from `modules()`. */
  function ModulesSpec(mods: seq<HpiModule>, all: bool): seq<HpiModule>
  {
    Filter(mods, ShowFilter(all))
  }

  /** The names collected in `skipped`. */
  function SkippedSpec(mods: seq<HpiModule>, all: bool): seq<string>
  {
    MapSeq(Filter(mods, SkipFilter(all)), ModuleName)
  }

  /** One more module: it is either yielded or its name is skipped. */
  lemma ModulesStep(mods: seq<HpiModule>, i: nat, all: bool)
    requires i < |mods|
    ensures ModulesSpec(mods[..i + 1], all)
            == ModulesSpec(mods[..i], all) + (if Shown(all, mods[i]) then [mods[i]] else [])
    ensures SkippedSpec(mods[..i + 1], all)
            == SkippedSpec(mods[..i], all) + (if Shown(all, mods[i]) then [] else [mods[i].name])
  {
    var m := mods[i];
    assert mods[..i + 1] == mods[..i] + [m];
    FilterAppend(mods[..i], [m], ShowFilter(all));
    FilterAppend(mods[..i], [m], SkipFilter(all));
    MapSeqAppend(Filter(mods[..i], SkipFilter(all)), Filter([m], SkipFilter(all)), ModuleName);
  }

  /** `_modules(all=all)`: yields the modules to show, in order, and
      collects the names of the others for its closing warning. */
  method Modules(mods: seq<HpiModule>, all: bool) returns (yielded: seq<HpiModule>, skipped: seq<string>)
    ensures yielded == ModulesSpec(mods, all)
    ensures skipped == SkippedSpec(mods, all)
  {
    yielded, skipped := [], [];
    var i := 0;
    while i < |mods|
      invariant 0 <= i <= |mods|
      invariant yielded == ModulesSpec(mods[..i], all)
      invariant skipped == SkippedSpec(mods[..i], all)
    {
      var m := mods[i];
      ModulesStep(mods, i, all);
      if !all && m.skipReason.Some? {
        skipped := skipped + [m.name];
      } else {
        yielded := yielded + [m];
      }
      i := i + 1;
    }
    assert mods[..i] == mods;
  }

  /** Every module is either yielded or skipped; with `all` none is
      skipped, and otherwise exactly those with a skip reason are. */
  lemma {:induction false} ModulesPartition(mods: seq<HpiModule>, all: bool)
    ensures |ModulesSpec(mods, all)| + |SkippedSpec(mods, all)| == |mods|
    ensures all ==> ModulesSpec(mods, all) == mods && SkippedSpec(mods, all) == []
    ensures forall m :: m in ModulesSpec(mods, all) <==> m in mods && (all || m.skipReason.None?)
  {
    FilterSubset(mods, ShowFilter(all));
    if mods != [] {
      ModulesPartition(mods[1..], all);
    }
  }

  /** The verbosity and the modules `modules_check` goes through: naming
      modules forces verbose output and checks exactly those, unskipped;
      otherwise the modules `_modules(all=list_all)` yields. */
  function ModulesCheckPlan(verbose: bool, listAll: bool, forModules: seq<string>, mods: seq<HpiModule>)
    : (r: (bool, seq<HpiModule>))
    ensures forModules != [] ==>
              (r.0 && |r.1| == |forModules|
               && forall i :: 0 <= i < |forModules| ==> r.1[i] == HpiModule(forModules[i], None))
    ensures forModules == [] ==> r.0 == verbose && r.1 == ModulesSpec(mods, listAll)
  {
    if |forModules| > 0 then
      (true, MapSeq(forModules, (m: string) => HpiModule(m, None)))
    else
      (verbose, ModulesSpec(mods, listAll))
  }

  /** Asking about specific modules always prints details, and none of
      them is skipped. */
  lemma NamedModulesChecked(verbose: bool, listAll: bool, forModules: seq<string>, mods: seq<HpiModule>)
    requires forModules != []
    ensures ModulesCheckPlan(verbose, listAll, forModules, mods).0
    ensures forall m :: m in ModulesCheckPlan(verbose, listAll, forModules, mods).1 ==>
              m.skipReason.None? && m.name in forModules
  {
    var plan := ModulesCheckPlan(verbose, listAll, forModules, mods);
    forall m | m in plan.1 ensures m.skipReason.None? && m.name in forModules {
      var i :| 0 <= i < |plan.1| && plan.1[i] == m;
      assert m == HpiModule(forModules[i], None);
    }
  }

  // ---------------------------------------------------------------------
  // query_cmd

  /** The Python types `--order-type` can name. */
  datatype OrderType = DatetimeType | DateType | IntType | FloatType

  /** `--order-type`'s argument: the type it names, `None` for anything else. */
  function ChosenOrderType(name: Option<string>): (r: Option<OrderType>)
    ensures r.Some? <==> name.Some? && name.value in {"datetime", "date", "int", "float"}
  {
    if name == Some("datetime") then Some(DatetimeType)
    else if name == Some("date") then Some(DateType)
    else if name == Some("int") then Some(IntType)
    else if name == Some("float") then Some(FloatType)
    else None
  }

  /** The option value that names a type. */
  function OrderTypeName(t: OrderType): string
  {
    match t
    case DatetimeType => "datetime"
    case DateType => "date"
    case IntType => "int"
    case FloatType => "float"
  }

  /** Every type can be chosen by its name, and only by it. */
  lemma OrderTypeNameRoundTrip(t: OrderType, name: string)
    ensures ChosenOrderType(Some(OrderTypeName(t))) == Some(t)
    ensures ChosenOrderType(Some(name)) == Some(t) ==> name == OrderTypeName(t)
  {
  }

  /** The filtering options `query` hands on. */
  datatype QueryOptions = QueryOptions(
    orderType: Option<OrderType>,
    before: Option<string>,
    within: Option<string>,
    reverse: bool)

  /** `--recent`: shorthand for `--before now --within <recent> --reverse`,
      ordering by datetime unless a type was chosen. */
  function ApplyRecent(o: QueryOptions, recent: Option<string>): (r: QueryOptions)
    ensures recent.None? ==> r == o
    ensures recent.Some? ==> r.before == Some("now") && r.within == recent && r.reverse == !o.reverse
    ensures recent.Some? ==> r.orderType == (if o.orderType.Some? then o.orderType else Some(DatetimeType))
  {
    match recent
    case None => o
    case Some(_) =>
      QueryOptions(if o.orderType.None? then Some(DatetimeType) else o.orderType, Some("now"), recent, !o.reverse)
  }

  /** The options of `query_cmd` after reading `--order-type` and `--recent`. */
  function QueryPlan(orderType: Option<string>, before: Option<string>, within: Option<string>,
                     recent: Option<string>, reverse: bool): QueryOptions
  {
    ApplyRecent(QueryOptions(ChosenOrderType(orderType), before, within, reverse), recent)
  }

  /** `--recent` overrides `--before` and `--within`, flips `--reverse`,
      and keeps a named `--order-type`, while a name that is not a type
      still ends up ordering by datetime. */
  lemma QueryPlanRecent(orderType: Option<string>, before: Option<string>, within: Option<string>,
                        recent: string, reverse: bool)
    ensures QueryPlan(orderType, before, within, Some(recent), reverse)
            == QueryOptions(if ChosenOrderType(orderType).Some? then ChosenOrderType(orderType) else Some(DatetimeType),
                            Some("now"), Some(recent), !reverse)
    ensures QueryPlan(orderType, before, within, Some(recent), reverse).orderType.Some?
  {
  }

  /** Applying `--recent` twice restores the direction, and changes
      nothing else that once did not. */
  lemma ApplyRecentTwice(o: QueryOptions, recent: string)
    ensures ApplyRecent(ApplyRecent(o, Some(recent)), Some(recent))
            == ApplyRecent(o, Some(recent)).(reverse := o.reverse)
  {
  }
}
