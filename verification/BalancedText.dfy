/** The block extractor of tools/verify_j313_agx_g2_aml.py, which knows quotes and escapes. */
module BalancedText {
  import opened Results
  import opened Texts

  datatype Brackets = Brackets(open: char, close: char)

  /** The pairs in use are braces and parentheses. */
  predicate Proper(b: Brackets) {
    b.open != b.close && b.open != '"' && b.close != '"'
  }

  datatype Scan = Scan(depth: int, quoted: bool, escaped: bool)

  const OUTSIDE := Scan(0, false, false)

  /** One character of the loop. */
  function Next(b: Brackets, s: Scan, c: char): Scan {
    if s.quoted then
      if s.escaped then s.(escaped := false)
      else if c == '\\' then s.(escaped := true)
      else if c == '"' then s.(quoted := false)
      else s
    else if c == '"' then s.(quoted := true)
    else if c == b.open then s.(depth := s.depth + 1)
    else if c == b.close then s.(depth := s.depth - 1)
    else s
  }

  predicate Closes(b: Brackets, s: Scan, c: char) {
    !s.quoted && c != '"' && c != b.open && c == b.close && s.depth == 1
  }

  /** How many characters precede the one that closes the block. */
  function CloseIn(b: Brackets, text: string, s: Scan): (n: Option<nat>)
    ensures n.Some? ==> n.value < |text| && text[n.value] == b.close
  {
    if text == [] then None
    else if Closes(b, s, text[0]) then Some(0)
    else match CloseIn(b, text[1..], Next(b, s, text[0]))
      case None => None
      case Some(n) => Some(n + 1)
  }

  /** `_balanced`, with the position of the opening bracket; None is the error. */
  function Interior(b: Brackets, text: string, start: nat): Option<string>
    requires start <= |text|
  {
    match CloseIn(b, text[start..], OUTSIDE)
    case None => None
    case Some(n) => if n == 0 then None else Some(text[start + 1..start + n])
  }

  lemma NeverAtOnce(b: Brackets, text: string)
    ensures CloseIn(b, text, OUTSIDE) != Some(0)
  {
  }

  lemma Moved(b: Brackets, text: string, start: nat, index: nat, s: Scan)
    requires start <= index < |text|
    ensures Closes(b, s, text[index]) ==> CloseIn(b, text[index..], s) == Some(0)
    ensures !Closes(b, s, text[index]) ==>
      Later(index - start, CloseIn(b, text[index..], s))
      == Later(index + 1 - start, CloseIn(b, text[index + 1..], Next(b, s, text[index])))
  {
    assert text[index..][1..] == text[index + 1..];
  }

  function Later(k: nat, n: Option<nat>): Option<nat> {
    match n
    case None => None
    case Some(m) => Some(k + m)
  }

  method Balanced(b: Brackets, text: string, start: nat) returns (r: Option<string>)
    requires start <= |text|
    ensures r == Interior(b, text, start)
  {
    hide CloseIn;
    var depth, quoted, escaped := 0, false, false;
    var index := start;
    NeverAtOnce(b, text[start..]);
    while index < |text|
      invariant start <= index <= |text|
      invariant CloseIn(b, text[start..], OUTSIDE) == Later(index - start, CloseIn(b, text[index..], Scan(depth, quoted, escaped)))
    {
      var c := text[index];
      ghost var before := Scan(depth, quoted, escaped);
      Moved(b, text, start, index, before);
      if quoted {
        if escaped {
          escaped := false;
        } else if c == '\\' {
          escaped := true;
        } else if c == '"' {
          quoted := false;
        }
      } else if c == '"' {
        quoted := true;
      } else if c == b.open {
        depth := depth + 1;
      } else if c == b.close {
        depth := depth - 1;
        if depth == 0 {
          return Some(text[start + 1..index]);
        }
      }
      assert Scan(depth, quoted, escaped) == Next(b, before, c);
      index := index + 1;
    }
    NothingLeft(b, text[index..], Scan(depth, quoted, escaped));
    r := None;
  }

  lemma NothingLeft(b: Brackets, text: string, s: Scan)
    requires text == []
    ensures CloseIn(b, text, s) == None
  {
  }

  // ---- Printed block trees ----

  datatype Item = Plain(c: char) | Escaped(e: char)

  /** The contents of a block: plain characters, quoted strings and blocks, in order. */
  datatype Forest =
    | End
    | Char(c: char, rest: Forest)
    | Quoted(items: seq<Item>, after: Forest)
    | Block(body: Forest, next: Forest)

  predicate ValidItem(item: Item) {
    item.Plain? ==> item.c != '"' && item.c != '\\'
  }

  predicate Valid(b: Brackets, f: Forest) {
    match f
    case End => true
    case Char(c, rest) => c != b.open && c != b.close && c != '"' && Valid(b, rest)
    case Quoted(items, after) => (forall i :: 0 <= i < |items| ==> ValidItem(items[i])) && Valid(b, after)
    case Block(body, next) => Valid(b, body) && Valid(b, next)
  }

  function PrintItems(items: seq<Item>): string {
    if items == [] then []
    else (match items[0] case Plain(c) => [c] case Escaped(e) => ['\\', e]) + PrintItems(items[1..])
  }

  function Print(b: Brackets, f: Forest): string {
    match f
    case End => []
    case Char(c, rest) => [c] + Print(b, rest)
    case Quoted(items, after) => ['"'] + PrintItems(items) + ['"'] + Print(b, after)
    case Block(body, next) => [b.open] + Print(b, body) + [b.close] + Print(b, next)
  }

  lemma OneStep(b: Brackets, c: char, rest: string, s: Scan)
    requires !Closes(b, s, c)
    ensures CloseIn(b, [c] + rest, s) == Later(1, CloseIn(b, rest, Next(b, s, c)))
  {
    assert ([c] + rest)[1..] == rest;
  }

  lemma {:induction false} ItemsSkipped(b: Brackets, items: seq<Item>, rest: string, depth: int)
    requires forall i :: 0 <= i < |items| ==> ValidItem(items[i])
    ensures CloseIn(b, PrintItems(items) + (['"'] + rest), Scan(depth, true, false))
         == Later(|PrintItems(items)| + 1, CloseIn(b, rest, Scan(depth, false, false)))
  {
    hide CloseIn;
    var quoted := Scan(depth, true, false);
    if items == [] {
      assert PrintItems(items) + (['"'] + rest) == ['"'] + rest;
      OneStep(b, '"', rest, quoted);
    } else {
      assert ValidItem(items[0]);
      var tail := PrintItems(items[1..]) + (['"'] + rest);
      ItemsSkipped(b, items[1..], rest, depth);
      match items[0]
      case Plain(c) =>
        assert PrintItems(items) + (['"'] + rest) == [c] + tail;
        OneStep(b, c, tail, quoted);
      case Escaped(e) =>
        assert PrintItems(items) + (['"'] + rest) == ['\\'] + ([e] + tail);
        OneStep(b, '\\', [e] + tail, quoted);
        OneStep(b, e, tail, Scan(depth, true, true));
    }
  }

  /** The scan passes over a printed forest and comes back to the depth it had. */
  lemma {:induction false} ForestSkipped(b: Brackets, f: Forest, rest: string, depth: int)
    requires Proper(b) && Valid(b, f) && depth >= 1
    ensures CloseIn(b, Print(b, f) + rest, Scan(depth, false, false))
         == Later(|Print(b, f)|, CloseIn(b, rest, Scan(depth, false, false)))
    decreases f
  {
    hide CloseIn;
    var s := Scan(depth, false, false);
    match f
    case End =>
      assert Print(b, f) + rest == rest;
    case Char(c, more) =>
      assert Print(b, f) + rest == [c] + (Print(b, more) + rest);
      OneStep(b, c, Print(b, more) + rest, s);
      ForestSkipped(b, more, rest, depth);
    case Quoted(items, after) =>
      ForestSkipped(b, after, rest, depth);
      QuotedSkipped(b, items, Print(b, after), rest, depth);
    case Block(body, next) =>
      ForestSkipped(b, body, [b.close] + (Print(b, next) + rest), depth + 1);
      ForestSkipped(b, next, rest, depth);
      BlockSkipped(b, Print(b, body), Print(b, next), rest, depth);
  }

  lemma QuotedSkipped(b: Brackets, items: seq<Item>, after: string, rest: string, depth: int)
    requires forall i :: 0 <= i < |items| ==> ValidItem(items[i])
    requires CloseIn(b, after + rest, Scan(depth, false, false)) == Later(|after|, CloseIn(b, rest, Scan(depth, false, false)))
    ensures var printed := ['"'] + PrintItems(items) + ['"'] + after;
      CloseIn(b, printed + rest, Scan(depth, false, false)) == Later(|printed|, CloseIn(b, rest, Scan(depth, false, false)))
  {
    hide CloseIn, PrintItems, ValidItem;
    var inner, tail := PrintItems(items), after + rest;
    Regroup(['"'], inner, ['"'], after, rest);
    OneStep(b, '"', inner + (['"'] + tail), Scan(depth, false, false));
    ItemsSkipped(b, items, tail, depth);
  }

  lemma BlockSkipped(b: Brackets, body: string, next: string, rest: string, depth: int)
    requires Proper(b) && depth >= 1
    requires CloseIn(b, body + ([b.close] + (next + rest)), Scan(depth + 1, false, false))
          == Later(|body|, CloseIn(b, [b.close] + (next + rest), Scan(depth + 1, false, false)))
    requires CloseIn(b, next + rest, Scan(depth, false, false)) == Later(|next|, CloseIn(b, rest, Scan(depth, false, false)))
    ensures var printed := [b.open] + body + [b.close] + next;
      CloseIn(b, printed + rest, Scan(depth, false, false)) == Later(|printed|, CloseIn(b, rest, Scan(depth, false, false)))
  {
    hide CloseIn;
    Regroup([b.open], body, [b.close], next, rest);
    OneStep(b, b.open, body + ([b.close] + (next + rest)), Scan(depth, false, false));
    OneStep(b, b.close, next + rest, Scan(depth + 1, false, false));
  }

  lemma Regroup(a: string, b: string, c: string, d: string, e: string)
    ensures (a + b + c + d) + e == a + (b + (c + (d + e)))
  {
  }

  // ---- What is extracted is a printed tree ----

  /** Forests separated by closing brackets: the open blocks around a position. */
  function PrintAll(b: Brackets, fs: seq<Forest>): string {
    if fs == [] then [] else Print(b, fs[0]) + (if |fs| == 1 then [] else [b.close] + PrintAll(b, fs[1..]))
  }

  predicate AllValid(b: Brackets, fs: seq<Forest>) {
    forall i :: 0 <= i < |fs| ==> Valid(b, fs[i])
  }

  /** What the scan passed over, read back as trees: one forest for each open block, after
      the rest of the string literal it may have started in. */
  lemma {:induction false} ReadBack(b: Brackets, text: string, s: Scan) returns (first: seq<Item>, lead: string, fs: seq<Forest>)
    requires Proper(b) && s.depth >= 1 && (s.escaped ==> s.quoted) && CloseIn(b, text, s).Some?
    ensures AllValid(b, fs) && |fs| == s.depth
    ensures forall i :: 0 <= i < |first| ==> ValidItem(first[i])
    ensures |lead| == if s.escaped then 1 else 0
    ensures text[..CloseIn(b, text, s).value] ==
      (if s.quoted then lead + (PrintItems(first) + (['"'] + PrintAll(b, fs))) else PrintAll(b, fs))
    decreases |text|
  {
    hide CloseIn, Print, PrintAll, PrintItems, AllValid, Next, Closes, ValidItem;
    CloseStep(b, text, s);
    var c, rest := text[0], text[1..];
    if Closes(b, s, c) {
      ClosedForest(b, s, c);
      return [], [], [End];
    }
    var t := Next(b, s, c);
    NextIsOpen(b, s, c);
    var items, more, forests := ReadBack(b, rest, t);
    var n := CloseIn(b, rest, t).value;
    assert text[..n + 1] == [c] + rest[..n];
    if s.quoted {
      first, lead, fs := InQuotes(b, c, s, items, more, forests);
    } else {
      first, lead := [], [];
      fs := Outside(b, c, s, items, forests);
    }
  }

  lemma ClosedForest(b: Brackets, s: Scan, c: char)
    requires Closes(b, s, c)
    ensures !s.quoted && s.depth == 1 && AllValid(b, [End]) && PrintAll(b, [End]) == []
  {
  }

  lemma NextIsOpen(b: Brackets, s: Scan, c: char)
    requires Proper(b) && s.depth >= 1 && (s.escaped ==> s.quoted) && !Closes(b, s, c)
    ensures Next(b, s, c).depth >= 1 && (Next(b, s, c).escaped ==> Next(b, s, c).quoted)
    ensures !s.quoted ==> !Next(b, s, c).escaped
    ensures s.quoted ==> Next(b, s, c).depth == s.depth
  {
  }

  lemma CloseStep(b: Brackets, text: string, s: Scan)
    requires CloseIn(b, text, s).Some?
    ensures text != []
    ensures Closes(b, s, text[0]) ==> CloseIn(b, text, s) == Some(0)
    ensures !Closes(b, s, text[0]) ==>
      var later := CloseIn(b, text[1..], Next(b, s, text[0])); later.Some? && CloseIn(b, text, s).value == later.value + 1
  {
  }

  lemma InQuotes(b: Brackets, c: char, s: Scan, items: seq<Item>, more: string, forests: seq<Forest>)
    returns (first: seq<Item>, lead: string, fs: seq<Forest>)
    requires s.quoted && AllValid(b, forests) && |forests| == s.depth
    requires forall i :: 0 <= i < |items| ==> ValidItem(items[i])
    requires |more| == if Next(b, s, c).escaped then 1 else 0
    ensures AllValid(b, fs) && |fs| == s.depth && forall i :: 0 <= i < |first| ==> ValidItem(first[i])
    ensures |lead| == if s.escaped then 1 else 0
    ensures [c] + (if Next(b, s, c).quoted then more + (PrintItems(items) + (['"'] + PrintAll(b, forests))) else PrintAll(b, forests))
         == lead + (PrintItems(first) + (['"'] + PrintAll(b, fs)))
  {
    fs := forests;
    var tail := ['"'] + PrintAll(b, forests);
    if s.escaped {
      first, lead := items, [c];
    } else if c == '\\' {
      first, lead := [Escaped(more[0])] + items, [];
      assert more == [more[0]] && first[1..] == items;
      assert [c] + (more + (PrintItems(items) + tail)) == (['\\', more[0]] + PrintItems(items)) + tail;
    } else if c == '"' {
      first, lead := [], [];
    } else {
      first, lead := [Plain(c)] + items, [];
      assert first[1..] == items;
      assert [c] + (more + (PrintItems(items) + tail)) == ([c] + PrintItems(items)) + tail;
    }
  }

  lemma Outside(b: Brackets, c: char, s: Scan, items: seq<Item>, forests: seq<Forest>) returns (fs: seq<Forest>)
    requires Proper(b) && !s.quoted && s.depth >= 1 && !Closes(b, s, c)
    requires AllValid(b, forests) && |forests| == Next(b, s, c).depth
    requires forall i :: 0 <= i < |items| ==> ValidItem(items[i])
    ensures AllValid(b, fs) && |fs| == s.depth
    ensures [c] + (if Next(b, s, c).quoted then PrintItems(items) + (['"'] + PrintAll(b, forests)) else PrintAll(b, forests))
         == PrintAll(b, fs)
  {
    if c == b.close {
      fs := [End] + forests;
      assert fs[1..] == forests;
    } else if c == b.open && c != '"' {
      fs := [Block(forests[0], forests[1])] + forests[2..];
      JoinTwo(b, forests);
    } else {
      var head := if c == '"' then Quoted(items, forests[0]) else Char(c, forests[0]);
      fs := [head] + forests[1..];
      JoinOne(b, head, forests);
    }
  }

  lemma JoinOne(b: Brackets, head: Forest, forests: seq<Forest>)
    requires forests != []
    requires (head.Quoted? && head.after == forests[0]) || (head.Char? && head.rest == forests[0])
    ensures PrintAll(b, [head] + forests[1..]) ==
      if head.Quoted? then ['"'] + (PrintItems(head.items) + (['"'] + PrintAll(b, forests))) else [head.c] + PrintAll(b, forests)
  {
    var fs := [head] + forests[1..];
    assert fs[1..] == forests[1..];
    var tail := if |forests| == 1 then [] else [b.close] + PrintAll(b, forests[1..]);
    assert PrintAll(b, forests) == Print(b, forests[0]) + tail;
    assert PrintAll(b, fs) == Print(b, head) + tail;
  }

  lemma JoinTwo(b: Brackets, forests: seq<Forest>)
    requires |forests| >= 2
    ensures PrintAll(b, [Block(forests[0], forests[1])] + forests[2..]) == [b.open] + PrintAll(b, forests)
  {
    var head := Block(forests[0], forests[1]);
    var fs := [head] + forests[2..];
    assert fs[1..] == forests[2..] && forests[1..][1..] == forests[2..];
    var tail := if |forests| == 2 then [] else [b.close] + PrintAll(b, forests[2..]);
    assert PrintAll(b, forests[1..]) == Print(b, forests[1]) + tail;
    assert PrintAll(b, fs) == Print(b, head) + tail;
    var p, q := Print(b, forests[0]), Print(b, forests[1]);
    assert PrintAll(b, forests) == p + ([b.close] + (q + tail));
    assert Print(b, head) == [b.open] + p + [b.close] + q;
    hide Print, PrintAll;
    Regroup([b.open], p, [b.close], q, tail);
  }

  /** The extractor is exact: from an opening bracket it returns a string precisely when that
      string is a printed forest standing between the bracket and a closing one. */
  lemma InteriorIffPrinted(b: Brackets, text: string, start: nat, interior: string)
    requires Proper(b) && start < |text| && text[start] == b.open
    ensures Interior(b, text, start) == Some(interior) <==>
      (exists f :: Valid(b, f) && Print(b, f) == interior) && StartsWith(text[start..], [b.open] + interior + [b.close])
  {
    hide CloseIn;
    var rest := text[start + 1..];
    assert text[start..] == [b.open] + rest;
    OneStep(b, b.open, rest, OUTSIDE);
    var s := Scan(1, false, false);
    if Interior(b, text, start) == Some(interior) {
      var n := CloseIn(b, rest, s).value;
      assert interior == rest[..n];
      var _, _, fs := ReadBack(b, rest, s);
      assert Valid(b, fs[0]) && PrintAll(b, fs) == Print(b, fs[0]) + [];
      assert text[start..][..n + 2] == [b.open] + interior + [b.close];
    }
    if (exists f :: Valid(b, f) && Print(b, f) == interior) && StartsWith(text[start..], [b.open] + interior + [b.close]) {
      var f :| Valid(b, f) && Print(b, f) == interior;
      Extracted(b, rest, interior, f);
      assert text[start + 1..start + 1 + |interior|] == rest[..|interior|];
    }
  }

  lemma Extracted(b: Brackets, rest: string, interior: string, f: Forest)
    requires Proper(b) && Valid(b, f) && Print(b, f) == interior
    requires StartsWith([b.open] + rest, [b.open] + interior + [b.close])
    ensures |interior| < |rest| && rest[..|interior|] == interior
    ensures CloseIn(b, rest, Scan(1, false, false)) == Some(|interior|)
  {
    hide CloseIn, Print, Valid;
    Between(b, rest, interior);
    ForestSkipped(b, f, [b.close] + rest[|interior| + 1..], 1);
    ClosesNow(b, rest[|interior| + 1..]);
  }

  lemma Between(b: Brackets, rest: string, interior: string)
    requires StartsWith([b.open] + rest, [b.open] + interior + [b.close])
    ensures |interior| < |rest| && rest[..|interior|] == interior
    ensures rest == interior + ([b.close] + rest[|interior| + 1..])
  {
    var n := |interior|;
    var whole := [b.open] + interior + [b.close];
    assert ([b.open] + rest)[..n + 2] == whole;
    forall k | 0 <= k < n ensures rest[k] == interior[k] {
      assert ([b.open] + rest)[..n + 2][k + 1] == whole[k + 1];
    }
    assert ([b.open] + rest)[..n + 2][n + 1] == whole[n + 1];
  }

  lemma ClosesNow(b: Brackets, rest: string)
    requires Proper(b)
    ensures CloseIn(b, [b.close] + rest, Scan(1, false, false)) == Some(0)
  {
  }
}
