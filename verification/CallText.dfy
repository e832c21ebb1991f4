/** The call and argument splitters of extra/check_j313_madt_topology.py. */
module CallText {
  import opened Results
  import opened Texts

  // ---- Nesting ----

  function Step(c: char): int {
    if c == '(' then 1 else if c == ')' then -1 else 0
  }

  /** How much deeper a text ends than it begins. */
  function Depth(s: string): int {
    if s == [] then 0 else Step(s[0]) + Depth(s[1..])
  }

  lemma {:induction false} DepthJoin(a: string, b: string)
    ensures Depth(a + b) == Depth(a) + Depth(b)
  {
    if a == [] {
      assert a + b == b;
    } else {
      DepthJoin(a[1..], b);
      assert (a + b)[1..] == a[1..] + b;
    }
  }

  lemma DepthFront(s: string, k: nat)
    requires 0 < k <= |s|
    ensures Depth(s[..k]) == Step(s[0]) + Depth(s[1..][..k - 1])
  {
    assert s[..k][1..] == s[1..][..k - 1];
  }

  // ---- Arguments ----

  function Join(parts: seq<string>): string {
    if |parts| == 0 then [] else if |parts| == 1 then parts[0] else parts[0] + [','] + Join(parts[1..])
  }

  /** No comma of the text stands at depth zero when the text starts at this depth. */
  ghost predicate CommaFree(s: string, depth: int) {
    forall k :: 0 <= k < |s| && s[k] == ',' ==> depth + Depth(s[..k]) != 0
  }

  /** Parts whose joining commas, and no others, stand at depth zero. */
  ghost predicate Separable(parts: seq<string>) {
    && parts != []
    && (forall i :: 0 <= i < |parts| ==> CommaFree(parts[i], 0))
    && (forall i :: 0 <= i < |parts| - 1 ==> Depth(parts[i]) == 0)
  }

  function Glued(head: string, parts: seq<string>): (r: seq<string>)
    requires parts != []
    ensures r != []
  {
    [head + parts[0]] + parts[1..]
  }

  /** The text cut at the commas of depth zero. */
  function Segments(s: string, depth: int): (r: seq<string>)
    ensures r != []
  {
    if s == [] then [[]]
    else if s[0] == ',' && depth == 0 then [[]] + Segments(s[1..], depth)
    else Glued([s[0]], Segments(s[1..], depth + Step(s[0])))
  }

  lemma GluedTwice(a: string, b: string, parts: seq<string>)
    requires parts != []
    ensures Glued(a, Glued(b, parts)) == Glued(a + b, parts)
  {
    assert a + (b + parts[0]) == (a + b) + parts[0];
  }

  lemma GluedNothing(parts: seq<string>)
    requires parts != []
    ensures Glued([], parts) == parts
  {
    assert [] + parts[0] == parts[0];
  }

  /** Cutting loses nothing. */
  lemma {:induction false} SegmentsJoin(s: string, depth: int)
    ensures Join(Segments(s, depth)) == s
  {
    if s != [] {
      var d := if s[0] == ',' && depth == 0 then depth else depth + Step(s[0]);
      var rest := Segments(s[1..], d);
      SegmentsJoin(s[1..], d);
      if s[0] == ',' && depth == 0 {
        assert ([[]] + rest)[1..] == rest;
        assert s == [','] + s[1..];
      } else {
        JoinGlued([s[0]], rest);
        assert s == [s[0]] + s[1..];
      }
    }
  }

  lemma JoinGlued(head: string, parts: seq<string>)
    requires parts != []
    ensures Join(Glued(head, parts)) == head + Join(parts)
  {
    assert Glued(head, parts)[1..] == parts[1..];
    if |parts| > 1 {
      assert (head + parts[0]) + [','] + Join(parts[1..]) == head + (parts[0] + [','] + Join(parts[1..]));
    }
  }

  lemma CommaFreeTail(s: string, depth: int)
    requires s != [] && CommaFree(s, depth)
    ensures CommaFree(s[1..], depth + Step(s[0])) && !(s[0] == ',' && depth == 0)
  {
    assert s[..0] == [];
    forall k | 0 <= k < |s[1..]| && s[1..][k] == ',' ensures depth + Step(s[0]) + Depth(s[1..][..k]) != 0 {
      DepthFront(s, k + 1);
      assert s[k + 1] == ',';
    }
  }

  lemma CommaFreeCons(c: char, s: string, depth: int)
    requires CommaFree(s, depth + Step(c)) && !(c == ',' && depth == 0)
    ensures CommaFree([c] + s, depth)
  {
    var t := [c] + s;
    assert t[1..] == s;
    forall k | 0 <= k < |t| && t[k] == ',' ensures depth + Depth(t[..k]) != 0 {
      if k == 0 {
        assert t[..0] == [];
      } else {
        DepthFront(t, k);
        assert s[k - 1] == ',';
      }
    }
  }

  /** A part without a separating comma is passed over whole. */
  lemma {:induction false} PartTaken(part: string, rest: string, depth: int)
    requires CommaFree(part, depth)
    ensures Segments(part + rest, depth) == Glued(part, Segments(rest, depth + Depth(part)))
  {
    hide CommaFree, Glued, Step;
    if part == [] {
      assert part + rest == rest;
      GluedNothing(Segments(rest, depth));
    } else {
      CommaFreeTail(part, depth);
      PartTaken(part[1..], rest, depth + Step(part[0]));
      assert (part + rest)[1..] == part[1..] + rest;
      GluedTwice([part[0]], part[1..], Segments(rest, depth + Depth(part)));
      assert [part[0]] + part[1..] == part;
    }
  }

  lemma {:induction false} SegmentsOfJoin(parts: seq<string>)
    requires Separable(parts)
    ensures Segments(Join(parts), 0) == parts
  {
    hide CommaFree, Glued;
    var part := parts[0];
    if |parts| == 1 {
      PartTaken(part, [], 0);
      assert part + [] == part;
      assert Glued(part, [[]]) == [part] by { GlueEnd(part); }
    } else {
      var rest := Join(parts[1..]);
      assert Depth(parts[0]) == 0;
      assert forall i :: 0 <= i < |parts[1..]| ==> parts[1..][i] == parts[i + 1];
      SegmentsOfJoin(parts[1..]);
      PartTaken(part, [','] + rest, 0);
      assert Join(parts) == part + ([','] + rest);
      assert ([','] + rest)[1..] == rest;
      GlueComma(part, parts[1..]);
      assert [part] + parts[1..] == parts;
    }
  }

  lemma GlueEnd(part: string)
    ensures Glued(part, [[]]) == [part]
  {
    assert part + [] == part;
  }

  lemma GlueComma(part: string, parts: seq<string>)
    ensures Glued(part, [[]] + parts) == [part] + parts
  {
    assert part + [] == part;
  }

  /** The segments are always separable, wherever the text starts. */
  lemma {:induction false} SegmentsSeparable(s: string, depth: int)
    ensures var r := Segments(s, depth);
      && CommaFree(r[0], depth)
      && (|r| > 1 ==> depth + Depth(r[0]) == 0 && Separable(r[1..]))
  {
    hide CommaFree, Separable;
    if s == [] {
      EmptyCommaFree(depth);
    } else if s[0] == ',' && depth == 0 {
      var rest := Segments(s[1..], 0);
      SegmentsSeparable(s[1..], 0);
      EmptyCommaFree(0);
      assert Segments(s, depth)[1..] == rest;
      SeparableCons(rest);
    } else {
      var rest := Segments(s[1..], depth + Step(s[0]));
      SegmentsSeparable(s[1..], depth + Step(s[0]));
      CommaFreeCons(s[0], rest[0], depth);
      var r := Segments(s, depth);
      assert r[0] == [s[0]] + rest[0] && r[1..] == rest[1..];
      assert r[0][1..] == rest[0];
    }
  }

  lemma EmptyCommaFree(depth: int)
    ensures CommaFree([], depth)
  {
  }

  lemma SeparableCons(r: seq<string>)
    requires r != [] && CommaFree(r[0], 0) && (|r| > 1 ==> Depth(r[0]) == 0 && Separable(r[1..]))
    ensures Separable(r)
  {
    hide CommaFree;
    forall i | 0 <= i < |r| ensures CommaFree(r[i], 0) {
      if i > 0 {
        assert r[1..][i - 1] == r[i];
      }
    }
    forall i | 0 <= i < |r| - 1 ensures Depth(r[i]) == 0 {
      if i > 0 {
        assert r[1..][i - 1] == r[i];
      }
    }
  }

  /** Joining is undone exactly for separable parts. */
  lemma SegmentsIffSeparable(parts: seq<string>)
    requires parts != []
    ensures Segments(Join(parts), 0) == parts <==> Separable(parts)
  {
    if Segments(Join(parts), 0) == parts {
      SegmentsSeparable(Join(parts), 0);
      SeparableCons(parts);
    }
    if Separable(parts) {
      SegmentsOfJoin(parts);
    }
  }

  // ---- Stripping ----

  /** What `str.strip` removes: the characters of `str.isspace`. */
  predicate IsSpace(c: char) {
    var n := c as int;
    || 0x09 <= n <= 0x0D || 0x1C <= n <= 0x20 || n == 0x85 || n == 0xA0 || n == 0x1680
    || 0x2000 <= n <= 0x200A || n == 0x2028 || n == 0x2029 || n == 0x202F || n == 0x205F || n == 0x3000
  }

  function StripLeft(s: string): (r: string)
    ensures |r| <= |s| && (|r| == |s| ==> r == s)
  {
    if s != [] && IsSpace(s[0]) then StripLeft(s[1..]) else s
  }

  function StripRight(s: string): (r: string)
    ensures |r| <= |s| && (|r| == |s| ==> r == s)
  {
    if s != [] && IsSpace(s[|s| - 1]) then StripRight(s[..|s| - 1]) else s
  }

  function Strip(s: string): (r: string)
    ensures |r| <= |s| && (|r| == |s| ==> r == s)
  {
    StripRight(StripLeft(s))
  }

  function StripAll(parts: seq<string>): (r: seq<string>)
    ensures |r| == |parts| && forall i :: 0 <= i < |r| ==> r[i] == Strip(parts[i])
  {
    seq(|parts|, i requires 0 <= i < |parts| => Strip(parts[i]))
  }

  predicate Stripped(parts: seq<string>) {
    forall i :: 0 <= i < |parts| ==> Strip(parts[i]) == parts[i]
  }

  lemma {:induction false} JoinLength(a: seq<string>, b: seq<string>)
    requires |a| == |b| && forall i :: 0 <= i < |a| ==> |a[i]| <= |b[i]|
    ensures |Join(a)| <= |Join(b)|
    ensures |Join(a)| == |Join(b)| ==> forall i :: 0 <= i < |a| ==> |a[i]| == |b[i]|
  {
    if |a| > 1 {
      var s, t := a[1..], b[1..];
      assert forall i :: 0 <= i < |s| ==> s[i] == a[i + 1] && t[i] == b[i + 1];
      JoinLength(s, t);
      if |Join(a)| == |Join(b)| {
        forall i | 0 <= i < |a| ensures |a[i]| == |b[i]| {
          if i > 0 {
            assert |s[i - 1]| == |t[i - 1]|;
          }
        }
      }
    }
  }

  /** The segments already cut, the one being read, and the rest of the text. */
  function Progress(done: seq<string>, taken: string, rest: string, depth: int): seq<string> {
    done + Glued(taken, Segments(rest, depth))
  }

  lemma CutHere(done: seq<string>, taken: string, rest: string)
    requires rest != [] && rest[0] == ','
    ensures Progress(done, taken, rest, 0) == Progress(done + [taken], [], rest[1..], 0)
  {
    var more := Segments(rest[1..], 0);
    GlueComma(taken, more);
    GluedNothing(more);
    assert done + ([taken] + more) == (done + [taken]) + more;
  }

  lemma ReadOn(done: seq<string>, taken: string, rest: string, depth: int)
    requires rest != [] && !(rest[0] == ',' && depth == 0)
    ensures Progress(done, taken, rest, depth) == Progress(done, taken + [rest[0]], rest[1..], depth + Step(rest[0]))
  {
    GluedTwice(taken, [rest[0]], Segments(rest[1..], depth + Step(rest[0])));
  }

  lemma Begun(call: string)
    ensures Progress([], [], call, 0) == Segments(call, 0)
  {
    GluedNothing(Segments(call, 0));
  }

  lemma Ended(done: seq<string>, taken: string, depth: int)
    ensures Progress(done, taken, [], depth) == done + [taken]
  {
    GlueEnd(taken);
  }

  lemma StripOneMore(done: seq<string>, taken: string)
    ensures StripAll(done + [taken]) == StripAll(done) + [Strip(taken)]
  {
    hide Strip;
  }

  /** `_arguments` */
  method Arguments(call: string) returns (arguments: seq<string>)
    ensures arguments == StripAll(Segments(call, 0))
  {
    hide Progress, StripAll, Strip, Segments;
    var start, depth := 0, 0;
    arguments := [];
    ghost var done: seq<string> := [];
    var index := 0;
    Begun(call);
    assert call[0..0] == [] && call[0..] == call;
    NothingStripped();
    while index < |call|
      invariant 0 <= start <= index <= |call| && arguments == StripAll(done)
      invariant Progress(done, call[start..index], call[index..], depth) == Segments(call, 0)
    {
      var character := call[index];
      ghost var taken, rest := call[start..index], call[index..];
      assert rest[1..] == call[index + 1..] && rest[0] == character;
      if character == ',' && depth == 0 {
        CutHere(done, taken, rest);
        StripOneMore(done, taken);
        arguments := arguments + [Strip(call[start..index])];
        done := done + [taken];
        start := index + 1;
        assert call[start..index + 1] == [];
      } else {
        ReadOn(done, taken, rest, depth);
        assert call[start..index + 1] == taken + [character];
        if character == '(' {
          depth := depth + 1;
        } else if character == ')' {
          depth := depth - 1;
        }
      }
      index := index + 1;
    }
    assert call[index..] == [] && call[start..index] == call[start..];
    Ended(done, call[start..], depth);
    StripOneMore(done, call[start..]);
    arguments := arguments + [Strip(call[start..])];
  }

  lemma NothingStripped()
    ensures StripAll([]) == []
  {
  }

  /** Splitting undoes joining exactly for stripped, separable arguments. */
  lemma ArgumentsIff(parts: seq<string>)
    requires parts != []
    ensures StripAll(Segments(Join(parts), 0)) == parts <==> Stripped(parts) && Separable(parts)
  {
    hide Strip, Separable, Segments;
    var segments := Segments(Join(parts), 0);
    SegmentsIffSeparable(parts);
    SegmentsJoin(Join(parts), 0);
    if StripAll(segments) == parts {
      JoinLength(parts, segments);
      forall i | 0 <= i < |parts| ensures parts[i] == segments[i] && Strip(parts[i]) == parts[i] {
        assert StripAll(segments)[i] == Strip(segments[i]);
      }
    }
  }

  // ---- Calls ----

  function Marker(): (m: string)
    ensures |m| == 32
  {
    "EFI_ACPI_6_3_GICC_STRUCTURE_INIT"
  }

  /** `str.find` from the beginning of a text. */
  function Find(s: string, needle: string): (r: Option<nat>)
    ensures r.Some? ==> r.value + |needle| <= |s|
  {
    if StartsWith(s, needle) then Some(0)
    else if s == [] then None
    else match Find(s[1..], needle)
      case None => None
      case Some(n) => Some(n + 1)
  }

  /** It finds the first occurrence, and misses none. */
  lemma {:induction false} FindsFirst(s: string, needle: string)
    ensures var r := Find(s, needle);
      && (r.Some? ==> StartsWith(s[r.value..], needle))
      && forall j :: 0 <= j <= |s| && (r.Some? ==> j < r.value) ==> !StartsWith(s[j..], needle)
  {
    hide StartsWith;
    assert s[0..] == s;
    if !StartsWith(s, needle) && s != [] {
      FindsFirst(s[1..], needle);
      forall j | 1 <= j <= |s| ensures s[j..] == s[1..][j - 1..] {
      }
    }
  }

  /** The length of a text up to and including the parenthesis that brings the depth to zero. */
  function ClosedAfter(s: string, depth: nat): (r: Option<nat>)
    requires depth > 0
    ensures r.Some? ==> 0 < r.value <= |s|
  {
    if s == [] then None
    else
      var d := depth + Step(s[0]);
      if d == 0 then Some(1)
      else match ClosedAfter(s[1..], d)
        case None => None
        case Some(n) => Some(n + 1)
  }

  /** A balanced text: no prefix closes more than it opens, and the whole closes all. */
  ghost predicate Nested(s: string) {
    Depth(s) == 0 && forall k :: 0 <= k <= |s| ==> Depth(s[..k]) >= 0
  }

  /** Every shorter prefix leaves the depth positive. */
  ghost predicate StaysOpen(s: string, depth: int, n: nat) {
    forall k :: 0 <= k < n && k <= |s| ==> depth + Depth(s[..k]) > 0
  }

  lemma StaysOpenTail(s: string, depth: int, n: nat)
    requires s != [] && depth > 0 && n > 0
    ensures StaysOpen(s, depth, n) <==> StaysOpen(s[1..], depth + Step(s[0]), n - 1)
  {
    assert s[..0] == [];
    if StaysOpen(s, depth, n) {
      forall k | 0 <= k < n - 1 && k <= |s[1..]| ensures depth + Step(s[0]) + Depth(s[1..][..k]) > 0 {
        DepthFront(s, k + 1);
        assert depth + Depth(s[..k + 1]) > 0;
      }
    }
    if StaysOpen(s[1..], depth + Step(s[0]), n - 1) {
      forall k | 0 <= k < n && k <= |s| ensures depth + Depth(s[..k]) > 0 {
        if k > 0 {
          DepthFront(s, k);
          assert depth + Step(s[0]) + Depth(s[1..][..k - 1]) > 0;
        }
      }
    }
  }

  /** The loop stops after the first prefix that reaches depth zero, and only there. */
  lemma {:induction false} ClosedAfterIff(s: string, depth: nat, n: nat)
    requires depth > 0 && 0 < n <= |s|
    ensures ClosedAfter(s, depth) == Some(n) <==> depth + Depth(s[..n]) == 0 && StaysOpen(s, depth, n)
  {
    hide StaysOpen;
    var d := depth + Step(s[0]);
    DepthFront(s, n);
    StaysOpenTail(s, depth, n);
    if d == 0 {
      if n > 1 {
        NotOpen(s[1..], n - 1);
      } else {
        assert s[1..][..0] == [];
        NothingOpen(s[1..], d);
      }
    } else if n == 1 {
      assert s[1..][..0] == [];
    } else {
      ClosedAfterIff(s[1..], d, n - 1);
    }
  }

  lemma NotOpen(s: string, n: nat)
    requires n > 0
    ensures !StaysOpen(s, 0, n)
  {
    assert Depth(s[..0]) == 0;
  }

  lemma NothingOpen(s: string, depth: int)
    ensures StaysOpen(s, depth, 0)
  {
  }

  /** The depth first returns to zero exactly after a balanced interior and its parenthesis. */
  lemma ClosedAfterNested(s: string, n: nat)
    requires 0 < n <= |s|
    ensures ClosedAfter(s, 1) == Some(n) <==> Nested(s[..n - 1]) && s[n - 1] == ')'
  {
    hide ClosedAfter;
    ClosedAfterIff(s, 1, n);
    var interior := s[..n - 1];
    assert s[..n] == interior + [s[n - 1]];
    DepthJoin(interior, [s[n - 1]]);
    assert Depth([s[n - 1]]) == Step(s[n - 1]) by { assert [s[n - 1]][1..] == []; }
    assert interior[..n - 1] == interior;
    if StaysOpen(s, 1, n) {
      forall k | 0 <= k <= |interior| ensures Depth(interior[..k]) >= 0 {
        assert interior[..k] == s[..k];
        assert 1 + Depth(s[..k]) > 0;
      }
    }
    if Nested(interior) {
      forall k | 0 <= k < n && k <= |s| ensures 1 + Depth(s[..k]) > 0 {
        assert interior[..k] == s[..k];
        assert Depth(interior[..k]) >= 0;
      }
    }
  }

  /** What one turn of the generator finds. */
  datatype Turn = NoMore | Broken | Found(interior: string, rest: string)

  function FirstCall(s: string): (t: Turn)
    ensures t.Found? ==> |t.rest| < |s|
  {
    match Find(s, Marker())
    case None => NoMore
    case Some(m) =>
      var afterMarker := s[m + |Marker()|..];
      match Find(afterMarker, "(")
      case None => Broken
      case Some(o) =>
        var inside := afterMarker[o + 1..];
        match ClosedAfter(inside, 1)
        case None => Broken
        case Some(n) => Found(inside[..n - 1], inside[n..])
  }

  /** `_calls`: the interiors it yields, and whether it ends without an error. */
  function Yielded(s: string): (seq<string>, bool)
    decreases |s|
  {
    match FirstCall(s)
    case NoMore => ([], true)
    case Broken => ([], false)
    case Found(interior, rest) => ([interior] + Yielded(rest).0, Yielded(rest).1)
  }

  /** One call with the text before it. */
  datatype Call = Call(gap: string, filler: string, interior: string)

  ghost predicate ValidCall(c: Call) {
    && (forall j :: 0 <= j < |c.gap| ==> !StartsWith((c.gap + Marker())[j..], Marker()))
    && '(' !in c.filler
    && Nested(c.interior)
  }

  ghost predicate ValidCalls(calls: seq<Call>) {
    forall i :: 0 <= i < |calls| ==> ValidCall(calls[i])
  }

  function PrintCall(c: Call): string {
    c.gap + Marker() + c.filler + ['('] + c.interior + [')']
  }

  function PrintCalls(calls: seq<Call>, tail: string): string {
    if calls == [] then tail else PrintCall(calls[0]) + PrintCalls(calls[1..], tail)
  }

  function Interiors(calls: seq<Call>): seq<string> {
    if calls == [] then [] else [calls[0].interior] + Interiors(calls[1..])
  }

  lemma FindsMarker(gap: string, rest: string)
    ensures Find(gap + Marker() + rest, Marker()) == Some(|gap|) <==>
      forall j :: 0 <= j < |gap| ==> !StartsWith((gap + Marker())[j..], Marker())
  {
    hide Marker, Find;
    var s := gap + Marker() + rest;
    assert s[|gap|..] == Marker() + rest;
    forall j | 0 <= j < |gap| ensures StartsWith(s[j..], Marker()) == StartsWith((gap + Marker())[j..], Marker()) {
      assert s[j..] == (gap + Marker())[j..] + rest;
      assert s[j..][..|Marker()|] == (gap + Marker())[j..][..|Marker()|];
    }
    assert (Marker() + rest)[..|Marker()|] == Marker();
    assert StartsWith(s[|gap|..], Marker());
    FindsFirst(s, Marker());
  }

  lemma FindsParenthesis(filler: string, rest: string)
    ensures Find(filler + ['('] + rest, "(") == Some(|filler|) <==> '(' !in filler
  {
    hide Find;
    var s := filler + ['('] + rest;
    forall j | 0 <= j <= |filler| ensures StartsWith(s[j..], "(") <==> s[j] == '(' {
      assert s[j..][..1] == [s[j]];
    }
    FindsFirst(s, "(");
    assert s[|filler|] == '(';
    assert forall j :: 0 <= j < |filler| ==> s[j] == filler[j];
  }

  lemma {:induction false} PrintedYields(calls: seq<Call>, tail: string)
    requires ValidCalls(calls) && Find(tail, Marker()) == None
    ensures Yielded(PrintCalls(calls, tail)) == (Interiors(calls), true)
  {
    hide Find, Marker, ClosedAfter, ValidCall, PrintCall, Yielded;
    if calls == [] {
      NothingYielded(tail);
    } else {
      PrintedYields(calls[1..], tail);
      OneYielded(calls[0], PrintCalls(calls[1..], tail));
    }
  }

  lemma NothingYielded(tail: string)
    requires Find(tail, Marker()) == None
    ensures Yielded(tail) == ([], true)
  {
  }

  /** One turn of the generator, once everything is found. */
  lemma YieldStep(s: string, m: nat, afterMarker: string, o: nat, inside: string, n: nat)
    requires Find(s, Marker()) == Some(m) && afterMarker == s[m + |Marker()|..]
    requires Find(afterMarker, "(") == Some(o) && inside == afterMarker[o + 1..]
    requires ClosedAfter(inside, 1) == Some(n)
    ensures Yielded(s) == ([inside[..n - 1]] + Yielded(inside[n..]).0, Yielded(inside[n..]).1)
  {
    FoundCall(s, m, afterMarker, o, inside, n);
    hide Find, Marker, ClosedAfter, FirstCall;
  }

  lemma FoundCall(s: string, m: nat, afterMarker: string, o: nat, inside: string, n: nat)
    requires Find(s, Marker()) == Some(m) && afterMarker == s[m + |Marker()|..]
    requires Find(afterMarker, "(") == Some(o) && inside == afterMarker[o + 1..]
    requires ClosedAfter(inside, 1) == Some(n)
    ensures FirstCall(s) == Found(inside[..n - 1], inside[n..])
  {
    hide Find, Marker, ClosedAfter;
  }

  lemma OneYielded(c: Call, rest: string)
    requires ValidCall(c)
    ensures Yielded(PrintCall(c) + rest) == ([c.interior] + Yielded(rest).0, Yielded(rest).1)
  {
    hide Find, Marker, ClosedAfter, Nested, Yielded, StartsWith;
    var s := PrintCall(c) + rest;
    var inside := c.interior + ([')'] + rest);
    var afterMarker := c.filler + ['('] + inside;
    Regroup(c.gap, Marker(), c.filler, c.interior, rest);
    assert s == c.gap + Marker() + afterMarker;
    FindsMarker(c.gap, afterMarker);
    DropTwo(c.gap, Marker(), afterMarker);
    FindsParenthesis(c.filler, inside);
    DropTwo(c.filler, ['('], inside);
    var n := |c.interior| + 1;
    DropTwo(c.interior, [')'], rest);
    ClosedAfterNested(inside, n);
    YieldStep(s, |c.gap|, afterMarker, |c.filler|, inside, n);
  }

  lemma DropTwo(a: string, b: string, rest: string)
    ensures (a + b + rest)[|a| + |b|..] == rest
    ensures a + (b + rest) == a + b + rest
    ensures (a + b + rest)[..|a|] == a
    ensures b != [] ==> (a + b + rest)[|a|] == b[0]
  {
  }

  lemma Regroup(gap: string, marker: string, filler: string, interior: string, rest: string)
    ensures (gap + marker + filler + ['('] + interior + [')']) + rest
         == gap + marker + (filler + ['('] + (interior + ([')'] + rest)))
  {
  }

  /** What was yielded, read back as calls. */
  lemma {:induction false} ReadCalls(s: string) returns (calls: seq<Call>, tail: string)
    requires Yielded(s).1
    ensures ValidCalls(calls) && Find(tail, Marker()) == None
    ensures s == PrintCalls(calls, tail) && Interiors(calls) == Yielded(s).0
    decreases |s|
  {
    hide Find, Marker, ClosedAfter, ValidCall, PrintCall;
    if Find(s, Marker()).None? {
      return [], s;
    }
    var c, rest := ReadOne(s);
    var more;
    more, tail := ReadCalls(rest);
    calls := [c] + more;
    assert calls[1..] == more;
  }

  lemma ReadOne(s: string) returns (c: Call, rest: string)
    requires Find(s, Marker()).Some? && Yielded(s).1
    ensures ValidCall(c) && s == PrintCall(c) + rest && |rest| < |s|
    ensures Yielded(s) == ([c.interior] + Yielded(rest).0, Yielded(rest).1)
  {
    hide Marker, ClosedAfter, Nested, Find, StartsWith, Yielded, ValidCall, PrintCall;
    Completes(s);
    var m := Find(s, Marker()).value;
    var afterMarker := s[m + |Marker()|..];
    var o := Find(afterMarker, "(").value;
    var inside := afterMarker[o + 1..];
    var n := ClosedAfter(inside, 1).value;
    YieldStep(s, m, afterMarker, o, inside, n);
    rest := inside[n..];
    c := Call(s[..m], afterMarker[..o], inside[..n - 1]);
    Assembled(s, c.gap, afterMarker, c.filler, inside, n);
  }

  /** The pieces a turn finds make a valid call. */
  lemma Assembled(s: string, gap: string, afterMarker: string, filler: string, inside: string, n: nat)
    requires Find(s, Marker()) == Some(|gap|) && gap == s[..|gap|] && afterMarker == s[|gap| + |Marker()|..]
    requires Find(afterMarker, "(") == Some(|filler|) && filler == afterMarker[..|filler|] && inside == afterMarker[|filler| + 1..]
    requires ClosedAfter(inside, 1) == Some(n)
    ensures var c := Call(gap, filler, inside[..n - 1]);
      ValidCall(c) && s == PrintCall(c) + inside[n..]
  {
    hide Marker, ClosedAfter, Nested, Find, StartsWith;
    var interior, rest := inside[..n - 1], inside[n..];
    ClosedAfterNested(inside, n);
    FoundSplits(s, Marker());
    FindsMarker(gap, afterMarker);
    FoundSplits(afterMarker, "(");
    FindsParenthesis(filler, inside);
    assert inside == interior + ([')'] + rest);
    Regroup(gap, Marker(), filler, interior, rest);
  }

  lemma Completes(s: string)
    requires Find(s, Marker()).Some? && Yielded(s).1
    ensures var afterMarker := s[Find(s, Marker()).value + |Marker()|..];
      var o := Find(afterMarker, "(");
      o.Some? && ClosedAfter(afterMarker[o.value + 1..], 1).Some?
  {
    hide Find, Marker, ClosedAfter;
  }

  lemma FoundSplits(s: string, needle: string)
    requires Find(s, needle).Some?
    ensures var n := Find(s, needle).value;
      s == s[..n] + needle + s[n + |needle|..]
  {
    hide Find;
    FindsFirst(s, needle);
    var n := Find(s, needle).value;
    assert s[n..][..|needle|] == needle;
  }

  /** `_calls` yields exactly the balanced interiors of the calls a text is made of, and
      ends without an error exactly when the text is calls and a tail without the marker. */
  lemma CallsIff(s: string, interiors: seq<string>)
    ensures Yielded(s) == (interiors, true) <==>
      exists calls: seq<Call>, tail: string ::
        ValidCalls(calls) && Find(tail, Marker()) == None && s == PrintCalls(calls, tail) && Interiors(calls) == interiors
  {
    hide Find, Marker, ValidCalls, PrintCalls, Yielded, Interiors;
    if Yielded(s) == (interiors, true) {
      var calls, tail := ReadCalls(s);
    }
    if exists calls: seq<Call>, tail: string ::
      ValidCalls(calls) && Find(tail, Marker()) == None && s == PrintCalls(calls, tail) && Interiors(calls) == interiors
    {
      var calls: seq<Call>, tail: string :|
        ValidCalls(calls) && Find(tail, Marker()) == None && s == PrintCalls(calls, tail) && Interiors(calls) == interiors;
      PrintedYields(calls, tail);
    }
  }

  /** Interiors already yielded in front of what the rest yields. */
  function YieldedAfter(calls: seq<string>, rest: string): (seq<string>, bool) {
    var (more, ok) := Yielded(rest);
    (calls + more, ok)
  }

  /** `_calls`, collecting what it yields; `ok` is false where it raises. */
  method Calls(source: string) returns (calls: seq<string>, ok: bool)
    ensures (calls, ok) == Yielded(source)
  {
    hide Yielded, Find, ClosedAfter, Marker, StartsWith;
    calls := [];
    var cursor := 0;
    assert source[0..] == source && [] + Yielded(source).0 == Yielded(source).0;
    while true
      invariant cursor <= |source| && YieldedAfter(calls, source[cursor..]) == Yielded(source)
      decreases |source| - cursor
    {
      ghost var rest := source[cursor..];
      var found := Find(source[cursor..], Marker());
      if found.None? {
        NothingYielded(rest);
        assert calls + [] == calls;
        return calls, true;
      }
      var marker := cursor + found.value;
      ghost var afterMarker := rest[found.value + |Marker()|..];
      assert source[marker + |Marker()|..] == afterMarker;
      var parenthesis := Find(source[marker + |Marker()|..], "(");
      if parenthesis.None? {
        Unterminated(rest);
        assert calls + [] == calls;
        return calls, false;
      }
      var opening := marker + |Marker()| + parenthesis.value;
      ghost var inside := afterMarker[parenthesis.value + 1..];
      assert source[opening + 1..] == inside;
      var depth, end := CloseCall(source, opening);
      if depth > 0 {
        Unterminated(rest);
        assert calls + [] == calls;
        return calls, false;
      }
      TurnTaken(source, cursor, found.value, parenthesis.value, end, calls);
      calls := calls + [source[opening + 1..end - 1]];
      cursor := end;
    }
  }

  lemma TurnTaken(source: string, cursor: nat, m: nat, o: nat, end: nat, calls: seq<string>)
    requires cursor <= |source| && Find(source[cursor..], Marker()) == Some(m)
    requires Find(source[cursor + m + |Marker()|..], "(") == Some(o)
    requires var opening := cursor + m + |Marker()| + o;
      opening + 1 < end <= |source| && ClosedAfter(source[opening + 1..], 1) == Some(end - (opening + 1))
    ensures var opening := cursor + m + |Marker()| + o;
      YieldedAfter(calls, source[cursor..]) == YieldedAfter(calls + [source[opening + 1..end - 1]], source[end..])
  {
    hide Find, Marker, ClosedAfter, Yielded, YieldedAfter;
    var rest := source[cursor..];
    var afterMarker := source[cursor + m + |Marker()|..];
    var opening := cursor + m + |Marker()| + o;
    var inside, n := source[opening + 1..], end - (opening + 1);
    assert afterMarker == rest[m + |Marker()|..];
    assert inside == afterMarker[o + 1..];
    YieldStep(rest, m, afterMarker, o, inside, n);
    assert inside[..n - 1] == source[opening + 1..end - 1] && inside[n..] == source[end..];
    OneMore(calls, source[opening + 1..end - 1], rest, source[end..]);
  }

  lemma OneMore(calls: seq<string>, interior: string, rest: string, later: string)
    requires Yielded(rest) == ([interior] + Yielded(later).0, Yielded(later).1)
    ensures YieldedAfter(calls, rest) == YieldedAfter(calls + [interior], later)
  {
    hide Yielded;
    assert calls + ([interior] + Yielded(later).0) == (calls + [interior]) + Yielded(later).0;
  }

  lemma Unterminated(rest: string)
    requires Find(rest, Marker()).Some?
    requires var afterMarker := rest[Find(rest, Marker()).value + |Marker()|..];
      var o := Find(afterMarker, "(");
      o.None? || ClosedAfter(afterMarker[o.value + 1..], 1).None?
    ensures Yielded(rest) == ([], false)
  {
    hide Find, ClosedAfter, Marker;
  }

  /** The inner loop: to the parenthesis that closes the call, if there is one. */
  method CloseCall(source: string, opening: nat) returns (depth: nat, end: nat)
    requires opening < |source|
    ensures opening < end <= |source|
    ensures match ClosedAfter(source[opening + 1..], 1)
            case None => depth > 0
            case Some(n) => depth == 0 && end == opening + 1 + n
  {
    hide ClosedAfter;
    depth, end := 1, opening + 1;
    ghost var inside := source[opening + 1..];
    while end < |source| && depth > 0
      invariant opening + 1 <= end <= |source|
      invariant depth == 0 ==> ClosedAfter(inside, 1) == Some(end - (opening + 1)) && end > opening + 1
      invariant depth > 0 ==> ClosedAfter(inside, 1) == Beyond(end - (opening + 1), ClosedAfter(source[end..], depth))
      decreases |source| - end
    {
      BeyondStep(source[end..], end - (opening + 1), depth);
      assert source[end..][1..] == source[end + 1..];
      if source[end] == '(' {
        depth := depth + 1;
      } else if source[end] == ')' {
        depth := depth - 1;
      }
      end := end + 1;
    }
    if depth > 0 {
      NothingCloses(source[end..], depth);
    }
  }

  lemma NothingCloses(s: string, depth: nat)
    requires s == [] && depth > 0
    ensures ClosedAfter(s, depth) == None
  {
  }

  lemma BeyondStep(rest: string, k: nat, depth: nat)
    requires rest != [] && depth > 0
    ensures var d := depth + Step(rest[0]);
      Beyond(k, ClosedAfter(rest, depth)) == if d == 0 then Some(k + 1) else Beyond(k + 1, ClosedAfter(rest[1..], d))
  {
  }

  function Beyond(k: nat, n: Option<nat>): Option<nat> {
    if n.Some? then Some(k + n.value) else None
  }
}
