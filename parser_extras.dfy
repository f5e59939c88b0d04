/** The finishing step of the resource-path template parser: the grammar
    hands over an ordered array of segments, which is validated (at most one
    `**` path wildcard), has its unnamed bindings named `$0`, `$1`, ... in
    place, and is returned together with the number of terminal segments. */
module ParserExtras {
  import opened Decimal

  // ---------------------------------------------------------------------------
  // Data model
  // ---------------------------------------------------------------------------

  /** The three segment kinds the grammar produces. */
  datatype Kind = Binding | EndBinding | Terminal

  /** The integer constant the grammar uses for each kind. */
  function KindCode(k: Kind): (c: int)
    ensures 1 <= c <= 3
  {
    match k
    case Binding => 1
    case EndBinding => 2
    case Terminal => 3
  }

  datatype Option<T> = None | Some(value: T)

  /** The kind a grammar constant stands for; None for any other integer. */
  function KindOfCode(c: int): (r: Option<Kind>)
    ensures r.Some? <==> 1 <= c <= 3
  {
    if c == 1 then Some(Binding)
    else if c == 2 then Some(EndBinding)
    else if c == 3 then Some(Terminal)
    else None
  }

  /** The three constants are distinct and each stands for exactly its kind. */
  lemma KindCodeRoundTrip(k: Kind, c: int)
    ensures KindOfCode(KindCode(k)) == Some(k)
    ensures KindOfCode(c).Some? ==> KindCode(KindOfCode(c).value) == c
  {
  }

  /** One parsed segment; the empty literal stands for an absent one. */
  datatype Segment = Segment(kind: Kind, literal: string)

  /** The one way finishing a parse can fail. */
  datatype Error = TooManyPathWildcards

  /** The outcome of a check that returns nothing on success. */
  datatype Outcome = Pass | Fail(error: Error)

  /** What a successful parse hands to the template: the same segment array and its size. */
  datatype ParseResult = ParseResult(segments: array<Segment>, size: nat)

  datatype Result<T> = Ok(value: T) | Err(error: Error)

  // ---------------------------------------------------------------------------
  // Path wildcards
  // ---------------------------------------------------------------------------

  /** A terminal segment whose literal is exactly `**`. */
  predicate IsPathWildcard(x: Segment) {
    x.kind == Terminal && x.literal == "**"
  }

  /** The number of path wildcards in `s`. */
  function WildcardCount(s: seq<Segment>): (n: nat)
    ensures n <= |s|
    decreases |s|
  {
    if s == [] then 0
    else WildcardCount(s[..|s| - 1]) + (if IsPathWildcard(s[|s| - 1]) then 1 else 0)
  }

  /** Two path wildcards occur in `s`, at any positions. */
  ghost predicate HasTwoPathWildcards(s: seq<Segment>) {
    exists i, j :: 0 <= i < j < |s| && IsPathWildcard(s[i]) && IsPathWildcard(s[j])
  }

  lemma {:induction false} WildcardCountPositive(s: seq<Segment>)
    ensures WildcardCount(s) >= 1 <==> exists i :: 0 <= i < |s| && IsPathWildcard(s[i])
    decreases |s|
  {
    if s != [] {
      var p := s[..|s| - 1];
      WildcardCountPositive(p);
      if exists i :: 0 <= i < |p| && IsPathWildcard(p[i]) {
        var i :| 0 <= i < |p| && IsPathWildcard(p[i]);
        assert IsPathWildcard(s[i]);
      }
      if exists i :: 0 <= i < |s| && IsPathWildcard(s[i]) {
        var i :| 0 <= i < |s| && IsPathWildcard(s[i]);
        if i < |p| {
          assert IsPathWildcard(p[i]);
        }
      }
    }
  }

  /** The count reaches two exactly when two path wildcards occur, wherever they are. */
  lemma {:induction false} WildcardCountTwo(s: seq<Segment>)
    ensures WildcardCount(s) >= 2 <==> HasTwoPathWildcards(s)
    decreases |s|
  {
    if s != [] {
      var p := s[..|s| - 1];
      var last := |s| - 1;
      WildcardCountTwo(p);
      WildcardCountPositive(p);
      if WildcardCount(s) >= 2 {
        if IsPathWildcard(s[last]) {
          var i :| 0 <= i < |p| && IsPathWildcard(p[i]);
          assert IsPathWildcard(s[i]) && IsPathWildcard(s[last]);
        } else {
          var i, j :| 0 <= i < j < |p| && IsPathWildcard(p[i]) && IsPathWildcard(p[j]);
          assert IsPathWildcard(s[i]) && IsPathWildcard(s[j]);
        }
      }
      if HasTwoPathWildcards(s) {
        var i, j :| 0 <= i < j < |s| && IsPathWildcard(s[i]) && IsPathWildcard(s[j]);
        assert IsPathWildcard(p[i]);
        if j < last {
          assert IsPathWildcard(p[j]);
        }
      }
    }
  }

  /** A prefix holds no more path wildcards than the whole sequence. */
  lemma {:induction false} WildcardCountPrefix(s: seq<Segment>, k: nat)
    requires k <= |s|
    ensures WildcardCount(s[..k]) <= WildcardCount(s)
    decreases |s|
  {
    if k < |s| {
      var p := s[..|s| - 1];
      assert s[..k] == p[..k];
      WildcardCountPrefix(p, k);
    } else {
      assert s[..k] == s;
    }
  }

  /** Inserting a segment that is not a path wildcard (a `**` binding, a `***`
      terminal, ...) anywhere leaves the wildcard count unchanged. */
  lemma {:induction false} WildcardCountIgnoresOthers(s: seq<Segment>, k: nat, x: Segment)
    requires k <= |s|
    requires !IsPathWildcard(x)
    ensures WildcardCount(s[..k] + [x] + s[k..]) == WildcardCount(s)
    decreases |s|
  {
    var t := s[..k] + [x] + s[k..];
    if k == |s| {
      assert t[..|t| - 1] == s;
    } else {
      var p := s[..|s| - 1];
      assert t[..|t| - 1] == p[..k] + [x] + p[k..];
      assert t[|t| - 1] == s[|s| - 1];
      WildcardCountIgnoresOthers(p, k, x);
    }
  }

  /** Two sequences that agree on where the path wildcards are have the same count. */
  lemma {:induction false} WildcardCountSamePositions(s: seq<Segment>, t: seq<Segment>)
    requires |s| == |t|
    requires forall i :: 0 <= i < |s| ==> (IsPathWildcard(s[i]) <==> IsPathWildcard(t[i]))
    ensures WildcardCount(s) == WildcardCount(t)
    decreases |s|
  {
    if s != [] {
      WildcardCountSamePositions(s[..|s| - 1], t[..|t| - 1]);
    }
  }

  /** Models `allowOnePathWildcard`: scans the segments in order and fails as
      soon as a second path wildcard is seen. It has no modifies clause, so it
      leaves the segments as they were whether it passes or fails. */
  method AllowOnePathWildcard(segments: array<Segment>) returns (o: Outcome)
    ensures o == Pass <==> WildcardCount(segments[..]) <= 1
    ensures o == Fail(TooManyPathWildcards) <==> HasTwoPathWildcards(segments[..])
  {
    var hasPathWildcard := false;
    for i := 0 to segments.Length
      invariant WildcardCount(segments[..i]) <= 1
      invariant hasPathWildcard <==> WildcardCount(segments[..i]) == 1
    {
      var s := segments[i];
      assert segments[..i + 1][..i] == segments[..i];
      if s.kind != Terminal || s.literal != "**" {
        continue;
      }
      if hasPathWildcard {
        WildcardCountPrefix(segments[..], i + 1);
        WildcardCountTwo(segments[..]);
        return Fail(TooManyPathWildcards);
      }
      hasPathWildcard := true;
    }
    assert segments[..] == segments[..segments.Length];
    WildcardCountTwo(segments[..]);
    return Pass;
  }

  // ---------------------------------------------------------------------------
  // Terminal count
  // ---------------------------------------------------------------------------

  /** Models `countTerminals`: the number of terminal segments. */
  function CountTerminals(s: seq<Segment>): (n: nat)
    ensures n <= |s|
    decreases |s|
  {
    if s == [] then 0
    else CountTerminals(s[..|s| - 1]) + (if s[|s| - 1].kind == Terminal then 1 else 0)
  }

  /** The positions of the terminal segments in `s`. */
  ghost function TerminalPositions(s: seq<Segment>): set<nat> {
    set i: nat | i < |s| && s[i].kind == Terminal
  }

  /** The count is the number of positions holding a terminal. */
  lemma {:induction false} CountTerminalsIsPositions(s: seq<Segment>)
    ensures CountTerminals(s) == |TerminalPositions(s)|
    decreases |s|
  {
    if s != [] {
      var p := s[..|s| - 1];
      CountTerminalsIsPositions(p);
      var last: nat := |s| - 1;
      if s[last].kind == Terminal {
        assert TerminalPositions(s) == TerminalPositions(p) + {last};
        assert last !in TerminalPositions(p);
      } else {
        assert TerminalPositions(s) == TerminalPositions(p);
      }
    }
  }

  /** The count is zero exactly when no segment is terminal. */
  lemma {:induction false} CountTerminalsZero(s: seq<Segment>)
    ensures CountTerminals(s) == 0 <==> forall i :: 0 <= i < |s| ==> s[i].kind != Terminal
    decreases |s|
  {
    if s != [] {
      var p := s[..|s| - 1];
      CountTerminalsZero(p);
      if CountTerminals(s) == 0 {
        forall i | 0 <= i < |s| ensures s[i].kind != Terminal {
          if i < |p| {
            assert s[i] == p[i];
          }
        }
      }
    }
  }

  /** The count is the length exactly when every segment is terminal. */
  lemma {:induction false} CountTerminalsAll(s: seq<Segment>)
    ensures CountTerminals(s) == |s| <==> forall i :: 0 <= i < |s| ==> s[i].kind == Terminal
    decreases |s|
  {
    if s != [] {
      var p := s[..|s| - 1];
      CountTerminalsAll(p);
      if CountTerminals(s) == |s| {
        forall i | 0 <= i < |s| ensures s[i].kind == Terminal {
          if i < |p| {
            assert s[i] == p[i];
          }
        }
      }
    }
  }

  /** The count depends only on the kinds, not on the literals. */
  lemma {:induction false} CountTerminalsSameKinds(s: seq<Segment>, t: seq<Segment>)
    requires |s| == |t|
    requires forall i :: 0 <= i < |s| ==> s[i].kind == t[i].kind
    ensures CountTerminals(s) == CountTerminals(t)
    decreases |s|
  {
    if s != [] {
      CountTerminalsSameKinds(s[..|s| - 1], t[..|t| - 1]);
    }
  }

  // ---------------------------------------------------------------------------
  // Binding names
  // ---------------------------------------------------------------------------

  /** A binding with no name, which `updateBindingLiterals` names. */
  predicate NeedsName(x: Segment) {
    x.kind == Binding && x.literal == ""
  }

  /** The name synthesized for the k-th unnamed binding: `$` and k in decimal. */
  function BindingName(k: nat): (name: string)
    ensures |name| >= 2 && name[0] == '$'
    ensures ParseDecimal(name[1..]) == k
  {
    ParseNatToString(k);
    "$" + NatToString(k)
  }

  lemma BindingNameInjective(j: nat, k: nat)
    ensures BindingName(j) == BindingName(k) <==> j == k
  {
    if BindingName(j) == BindingName(k) {
      assert BindingName(j)[1..] == BindingName(k)[1..];
    }
  }

  /** The number of unnamed bindings in `s`, which is also the counter's value after `s`. */
  function UnnamedCount(s: seq<Segment>): (n: nat)
    ensures n <= |s|
    decreases |s|
  {
    if s == [] then 0
    else UnnamedCount(s[..|s| - 1]) + (if NeedsName(s[|s| - 1]) then 1 else 0)
  }

  /** One step of the naming loop with the counter at `k`. */
  function NameOne(x: Segment, k: nat): Segment {
    if NeedsName(x) then x.(literal := BindingName(k)) else x
  }

  /** The segments after `updateBindingLiterals`: each unnamed binding gets the
      name for the number of unnamed bindings before it. */
  function NameBindings(s: seq<Segment>): (t: seq<Segment>)
    ensures |t| == |s|
    decreases |s|
  {
    if s == [] then []
    else
      var p := s[..|s| - 1];
      NameBindings(p) + [NameOne(s[|s| - 1], UnnamedCount(p))]
  }

  /** What naming does at position i, stated pointwise. */
  lemma {:induction false} NameBindingsAt(s: seq<Segment>, i: nat)
    requires i < |s|
    ensures NameBindings(s)[i] == NameOne(s[i], UnnamedCount(s[..i]))
    decreases |s|
  {
    var p := s[..|s| - 1];
    if i < |p| {
      assert s[..i] == p[..i];
      NameBindingsAt(p, i);
    } else {
      assert s[..i] == p;
    }
  }

  /** After naming, every binding has a non-empty name. */
  lemma {:induction false} BindingsAllNamed(s: seq<Segment>)
    ensures forall i :: 0 <= i < |s| && NameBindings(s)[i].kind == Binding ==> NameBindings(s)[i].literal != ""
  {
    forall i | 0 <= i < |s| ensures NameBindings(s)[i].kind == Binding ==> NameBindings(s)[i].literal != "" {
      NameBindingsAt(s, i);
    }
  }

  /** Naming changes nothing but the literal of unnamed bindings: kinds are
      kept, and every other segment (named bindings, end bindings, terminals)
      is left as it was. */
  lemma {:induction false} NameBindingsKeepsOthers(s: seq<Segment>)
    ensures |NameBindings(s)| == |s|
    ensures forall i :: 0 <= i < |s| ==> NameBindings(s)[i].kind == s[i].kind
    ensures forall i :: 0 <= i < |s| && !NeedsName(s[i]) ==> NameBindings(s)[i] == s[i]
  {
    forall i | 0 <= i < |s|
      ensures NameBindings(s)[i].kind == s[i].kind
      ensures !NeedsName(s[i]) ==> NameBindings(s)[i] == s[i]
    {
      NameBindingsAt(s, i);
    }
  }

  /** The counter's value at an unnamed binding is below the total number of
      unnamed bindings and grows strictly from one unnamed binding to the next. */
  lemma {:induction false} UnnamedCountMonotone(s: seq<Segment>, i: nat, j: nat)
    requires i <= j <= |s|
    ensures UnnamedCount(s[..i]) <= UnnamedCount(s[..j])
    ensures i < j && NeedsName(s[i]) ==> UnnamedCount(s[..i]) < UnnamedCount(s[..j])
    decreases j - i
  {
    if i < j {
      UnnamedCountMonotone(s, i, j - 1);
      assert s[..j][..j - 1] == s[..j - 1];
      if i == j - 1 {
        assert s[..j][j - 1] == s[i];
      }
    }
  }

  /** Two distinct unnamed bindings receive distinct names, the earlier one the smaller index. */
  lemma SynthesizedNamesDistinct(s: seq<Segment>, i: nat, j: nat)
    requires i < j < |s| && NeedsName(s[i]) && NeedsName(s[j])
    ensures UnnamedCount(s[..i]) < UnnamedCount(s[..j])
    ensures NameBindings(s)[i].literal != NameBindings(s)[j].literal
  {
    UnnamedCountMonotone(s, i, j);
    NameBindingsAt(s, i);
    NameBindingsAt(s, j);
    BindingNameInjective(UnnamedCount(s[..i]), UnnamedCount(s[..j]));
  }

  /** The names `$0`, ..., `$(k-1)`, in order. */
  function NameRun(k: nat): (r: seq<string>)
    ensures |r| == k
    ensures forall j :: 0 <= j < k ==> r[j] == BindingName(j)
  {
    if k == 0 then [] else NameRun(k - 1) + [BindingName(k - 1)]
  }

  /** The literals of `after` at the positions where `before` had an unnamed binding, in order. */
  function SynthesizedLiterals(before: seq<Segment>, after: seq<Segment>): (r: seq<string>)
    requires |before| == |after|
    ensures |r| == UnnamedCount(before)
    decreases |before|
  {
    if before == [] then []
    else
      var n := |before| - 1;
      SynthesizedLiterals(before[..n], after[..n]) + (if NeedsName(before[n]) then [after[n].literal] else [])
  }

  /** The synthesized names, read in sequence order, are exactly `$0`, `$1`, ...,
      `$(k-1)` for k unnamed bindings: the counter starts at zero, advances only
      when a name is synthesized, and leaves no gap. */
  lemma {:induction false} SynthesizedNamesRun(s: seq<Segment>)
    ensures SynthesizedLiterals(s, NameBindings(s)) == NameRun(UnnamedCount(s))
    decreases |s|
  {
    if s != [] {
      var n := |s| - 1;
      var p := s[..n];
      var t := NameBindings(s);
      assert t[..n] == NameBindings(p);
      SynthesizedNamesRun(p);
    }
  }

  /** A sequence with no unnamed binding is left as it is. */
  lemma {:induction false} NameBindingsNoUnnamed(s: seq<Segment>)
    requires forall i :: 0 <= i < |s| ==> !NeedsName(s[i])
    ensures NameBindings(s) == s
    decreases |s|
  {
    if s != [] {
      var p := s[..|s| - 1];
      NameBindingsNoUnnamed(p);
      assert s == p + [s[|s| - 1]];
    }
  }

  /** Naming twice is the same as naming once. */
  lemma {:induction false} NameBindingsIdempotent(s: seq<Segment>)
    ensures NameBindings(NameBindings(s)) == NameBindings(s)
  {
    var t := NameBindings(s);
    forall i | 0 <= i < |t| ensures !NeedsName(t[i]) {
      NameBindingsAt(s, i);
    }
    NameBindingsNoUnnamed(t);
  }

  /** Naming changes neither the path wildcards nor the terminal count. */
  lemma {:induction false} NameBindingsKeepsCounts(s: seq<Segment>)
    ensures WildcardCount(NameBindings(s)) == WildcardCount(s)
    ensures CountTerminals(NameBindings(s)) == CountTerminals(s)
  {
    NameBindingsKeepsOthers(s);
    var t := NameBindings(s);
    forall i | 0 <= i < |s| ensures IsPathWildcard(s[i]) <==> IsPathWildcard(t[i]) {
      NameBindingsAt(s, i);
    }
    WildcardCountSamePositions(s, t);
    CountTerminalsSameKinds(s, t);
  }

  /** Extending the input by one segment extends the named output by that
      segment named with the current counter. */
  lemma NameBindingsStep(s: seq<Segment>, i: nat)
    requires i < |s|
    ensures NameBindings(s[..i + 1]) == NameBindings(s[..i]) + [NameOne(s[i], UnnamedCount(s[..i]))]
    ensures UnnamedCount(s[..i + 1]) == UnnamedCount(s[..i]) + (if NeedsName(s[i]) then 1 else 0)
  {
    assert s[..i + 1][..i] == s[..i];
  }

  /** Models `updateBindingLiterals`: walks the segments in order and names
      each unnamed binding in place from a counter that advances only when a
      name is synthesized. */
  method UpdateBindingLiterals(segments: array<Segment>)
    modifies segments
    ensures segments[..] == NameBindings(old(segments[..]))
  {
    ghost var before := segments[..];
    var bindingIndex: nat := 0;
    for i := 0 to segments.Length
      invariant segments[..i] == NameBindings(before[..i])
      invariant forall k :: i <= k < segments.Length ==> segments[k] == before[k]
      invariant bindingIndex == UnnamedCount(before[..i])
    {
      NameBindingsStep(before, i);
      var s := segments[i];
      if s.kind == Binding && s.literal == "" {
        segments[i] := s.(literal := BindingName(bindingIndex));
        bindingIndex := bindingIndex + 1;
      }
      assert segments[..i + 1] == segments[..i] + [segments[i]];
    }
    assert before[..segments.Length] == before;
  }

  // ---------------------------------------------------------------------------
  // Finishing the parse
  // ---------------------------------------------------------------------------

  /** Models `finishParse`: validate, then name the bindings, then count the
      terminals. On failure nothing has been written; on success the same
      array comes back, named, with its terminal count. */
  method FinishParse(segments: array<Segment>) returns (r: Result<ParseResult>)
    modifies segments
    ensures r.Err? <==> HasTwoPathWildcards(old(segments[..]))
    ensures r.Err? ==> r.error == TooManyPathWildcards && segments[..] == old(segments[..])
    ensures r.Ok? ==> r.value.segments == segments
    ensures r.Ok? ==> segments[..] == NameBindings(old(segments[..]))
    ensures r.Ok? ==> r.value.size == CountTerminals(segments[..]) == CountTerminals(old(segments[..]))
    ensures r.Ok? ==> WildcardCount(segments[..]) <= 1
    ensures r.Ok? ==> forall i :: 0 <= i < segments.Length && segments[i].kind == Binding ==> segments[i].literal != ""
  {
    var check := AllowOnePathWildcard(segments);
    if check.Fail? {
      return Err(check.error);
    }
    ghost var before := segments[..];
    UpdateBindingLiterals(segments);
    NameBindingsKeepsCounts(before);
    BindingsAllNamed(before);
    return Ok(ParseResult(segments, CountTerminals(segments[..])));
  }
}

/** Worked examples of finishing a parse, on segment arrays as the grammar
    would produce them. */
module ParserExtrasExamples {
  import opened Decimal
  import opened ParserExtras

  /** Input whose first binding is already named: the unnamed one still
      receives `$0`, since a named binding takes no counter value. */
  lemma NamedBindingTakesNoCounter()
    ensures NameBindings([Segment(Binding, "shelf"), Segment(Binding, "")])
         == [Segment(Binding, "shelf"), Segment(Binding, "$0")]
  {
    var s := [Segment(Binding, "shelf"), Segment(Binding, "")];
    NameBindingsAt(s, 0);
    NameBindingsAt(s, 1);
    assert s[..1] == [s[0]] && [s[0]][..0] == [];
    assert UnnamedCount(s[..1]) == 0;
    assert NatToString(0) == "0";
    assert BindingName(0) == "$0";
  }

  /** Segments for a template with two unnamed bindings around `shelf` and `book`. */
  const ShelfBooks: seq<Segment> := [
    Segment(Binding, ""), Segment(Terminal, "shelf"), Segment(EndBinding, ""),
    Segment(Terminal, "books"), Segment(Binding, ""), Segment(Terminal, "book"),
    Segment(EndBinding, "")]

  /** No path wildcard, and all three terminals are counted. */
  lemma ShelfBooksCounts()
    ensures !HasTwoPathWildcards(ShelfBooks)
    ensures CountTerminals(ShelfBooks) == 3
  {
    var s := ShelfBooks;
    WildcardCountPositive(s);
    WildcardCountTwo(s);
    CountTerminalsIsPositions(s);
    assert TerminalPositions(s) == {1, 3, 5};
  }

  /** Both bindings are named, in order. */
  lemma ShelfBooksNamed()
    ensures NameBindings(ShelfBooks)[0].literal == "$0"
    ensures NameBindings(ShelfBooks)[4].literal == "$1"
  {
    var s := ShelfBooks;
    NameBindingsAt(s, 0);
    NameBindingsAt(s, 4);
    assert s[..1][..0] == [];
    assert UnnamedCount(s[..1]) == 1;
    assert s[..2][..1] == s[..1] && s[..2][1] == s[1];
    assert UnnamedCount(s[..2]) == 1;
    assert s[..3][..2] == s[..2] && s[..3][2] == s[2];
    assert UnnamedCount(s[..3]) == 1;
    assert s[..4][..3] == s[..3] && s[..4][3] == s[3];
    assert UnnamedCount(s[..4]) == 1;
    assert NatToString(0) == "0" && NatToString(1) == "1";
  }

  /** Segments `**`, `foo`, `**` hold two path wildcards with a terminal between them, so the sequence is rejected. */
  lemma SeparatedWildcardsRejected()
    ensures HasTwoPathWildcards([Segment(Terminal, "**"), Segment(Terminal, "foo"), Segment(Terminal, "**")])
  {
    var s := [Segment(Terminal, "**"), Segment(Terminal, "foo"), Segment(Terminal, "**")];
    assert IsPathWildcard(s[0]) && IsPathWildcard(s[2]);
  }

  /** The same template through FinishParse on an array. */
  method FinishParseScenario()
  {
    var a := new Segment[7](i requires 0 <= i < 7 => ShelfBooks[i]);
    assert a[..] == ShelfBooks;
    ShelfBooksCounts();
    ShelfBooksNamed();
    var r := FinishParse(a);
    assert r.Ok? && r.value.size == 3 && r.value.segments == a;
    assert a[0].literal == "$0" && a[4].literal == "$1";
  }
}
