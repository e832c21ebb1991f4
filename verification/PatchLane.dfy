/** The unified-diff parser of scripts/agent/patch_proposal_lane.py, which decides what an
    untrusted patch may touch before it is applied. */
module PatchLane {
  import opened Results
  import opened Texts
  import Ordering

  datatype Reason =
    | Malformed
    | BinaryForbidden
    | DeletionForbidden
    | RenameForbidden
    | ModeForbidden
    | PathInvalid
    | PathForbidden
    | SymlinkForbidden
    | GitlinkForbidden
    | GitQueryFailed
    | FileLimit
    | LineLimit

  /** The part of the contract the parser reads, and what `safe_target` finds in the
      repository for a path: None, or the reason it raises. */
  datatype Contract = Contract(
    allowed: seq<string>,
    forbidden: seq<string>,
    maxFiles: nat,
    maxDiffLines: nat,
    target: string -> Option<Reason>
  )

  // ---- Paths ----

  function Lower(c: char): char {
    if 'A' <= c <= 'Z' then (c as int + 32) as char else c
  }

  function Folded(s: string): string {
    seq(|s|, i requires 0 <= i < |s| => Lower(s[i]))
  }

  predicate SafePart(part: string) {
    part != "" && part != "." && part != ".." && Folded(part) != ".git"
  }

  /** `safe_path` */
  predicate SafePath(raw: string) {
    && raw != []
    && (forall i :: 0 <= i < |raw| ==> raw[i] != '\\' && raw[i] as int >= 32 && raw[i] as int != 127)
    && !StartsWith(raw, "/")
    && forall i :: 0 <= i < |Split(raw, '/')| ==> SafePart(Split(raw, '/')[i])
  }

  /** `under` */
  predicate Under(path: string, rules: seq<string>) {
    exists i :: 0 <= i < |rules| && (path == rules[i] || (EndsWith(rules[i], "/") && StartsWith(path, rules[i])))
  }

  /** `patch_path` without `null_allowed`. */
  function PatchPath(token: string, prefix: string): Result<string, Reason> {
    if token == "/dev/null" then Failure(DeletionForbidden)
    else if !StartsWith(token, prefix) || !SafePath(token[|prefix|..]) then Failure(PathInvalid)
    else Success(token[|prefix|..])
  }

  /** `patch_path` with `null_allowed`; None is `/dev/null`. */
  function PatchPathOrNull(token: string, prefix: string): Result<Option<string>, Reason> {
    if token == "/dev/null" then Success(None)
    else match PatchPath(token, prefix)
      case Failure(e) => Failure(e)
      case Success(path) => Success(Some(path))
  }

  // ---- The parts of a patch ----

  /** The lines of a section up to and including `--- `. */
  datatype Header = Header(git: string, mode: Option<string>, index: Option<string>, minus: string)

  /** A hunk with the line before it: `+++ ` for the first hunk of a section, and for a later
      one a line that the parser passes over without looking at it. */
  datatype Piece = Piece(before: string, header: string, body: seq<string>)

  datatype Section = Section(header: Header, target: string, pieces: seq<Piece>)

  function Optional(line: Option<string>): seq<string> {
    if line.Some? then [line.value] else []
  }

  function HeaderLines(h: Header): (r: seq<string>)
    ensures |r| >= 2
  {
    [h.git] + Optional(h.mode) + Optional(h.index) + [h.minus]
  }

  function PieceLines(p: Piece): (r: seq<string>)
    ensures |r| >= 2
  {
    [p.before, p.header] + p.body
  }

  function PiecesLines(pieces: seq<Piece>): seq<string> {
    if pieces == [] then [] else PieceLines(pieces[0]) + PiecesLines(pieces[1..])
  }

  function SectionLines(s: Section): (r: seq<string>)
    ensures |r| >= 2
  {
    HeaderLines(s.header) + PiecesLines(s.pieces)
  }

  function PatchLines(sections: seq<Section>): seq<string> {
    if sections == [] then [] else SectionLines(sections[0]) + PatchLines(sections[1..])
  }

  // ---- Single lines ----

  predicate StartsHunk(line: string) { StartsWith(line, "@@ ") }

  /** A hunk body ends before such a line. */
  predicate Stops(line: string) { StartsWith(line, "diff --git ") || StartsHunk(line) }

  predicate Signed(line: string) { StartsWith(line, "+") || StartsWith(line, "-") }

  predicate InBody(line: string) { StartsWith(line, " ") || Signed(line) }

  /** How many characters of a line are digits, from a position on. */
  function DigitsAt(line: string, i: nat): (n: nat)
    requires i <= |line|
    ensures i + n <= |line|
    decreases |line| - i
  {
    if i < |line| && '0' <= line[i] <= '9' then 1 + DigitsAt(line, i + 1) else 0
  }

  /** `\d+(?:,\d+)?` from a position on: where it ends, if it matches. */
  function RangeEnd(line: string, i: nat): (r: Option<nat>)
    requires i <= |line|
    ensures r.Some? ==> i < r.value <= |line|
  {
    var first := i + DigitsAt(line, i);
    if first == i then None
    else if first < |line| && line[first] == ',' && DigitsAt(line, first + 1) > 0
    then Some(first + 1 + DigitsAt(line, first + 1))
    else Some(first)
  }

  /** The regular expression of a hunk header. */
  predicate HunkHeader(line: string) {
    && StartsWith(line, "@@ -")
    && var a := RangeEnd(line, 4);
    && a.Some? && StartsWith(line[a.value..], " +")
    && var b := RangeEnd(line, a.value + 2);
    && b.Some? && (line[b.value..] == " @@" || line[b.value..] == " @@\n")
  }

  /** The paths of a `diff --git` line, which must agree. */
  function GitPath(line: string): Result<string, Reason> {
    if !StartsWith(line, "diff --git a/") then Failure(Malformed) else
      var fields := Split(StripNewlines(line), ' ');
      if |fields| != 4 then Failure(Malformed)
      else match PatchPath(fields[2], "a/")
        case Failure(e) => Failure(e)
        case Success(path) =>
          match PatchPath(fields[3], "b/")
          case Failure(e) => Failure(e)
          case Success(other) => if path != other then Failure(RenameForbidden) else Success(path)
  }

  predicate IsModeLine(line: string) { StartsWith(line, "new file mode ") }

  predicate IsIndexLine(line: string) { StartsWith(line, "index ") }

  predicate IndexAllowed(line: string, newFile: bool) {
    var index := StripNewlines(line);
    && Contains(index, "..")
    && (EndsWith(index, " 100644") || (newFile && |index| >= 6 && ' ' !in index[6..]))
  }

  /** The lines that would change a mode, delete, rename or copy. */
  predicate ChangesMore(line: string) {
    || StartsWith(line, "old mode ") || StartsWith(line, "new mode ") || StartsWith(line, "new file mode ")
    || StartsWith(line, "deleted file mode ") || StartsWith(line, "similarity index ")
    || StartsWith(line, "rename ") || StartsWith(line, "copy ")
  }

  /** `--- ` and `+++ ` agree with the `diff --git` line, and the target may be changed. */
  function Targeted(c: Contract, path: string, newFile: bool, minus: string, plus: Option<string>): Result<string, Reason> {
    if !StartsWith(minus, "--- ") then Failure(Malformed)
    else match PatchPathOrNull(StripNewlines(minus[4..]), "a/")
      case Failure(e) => Failure(e)
      case Success(from) =>
        if plus.None? || !StartsWith(plus.value, "+++ ") then Failure(Malformed)
        else match PatchPath(StripNewlines(plus.value[4..]), "b/")
          case Failure(e) => Failure(e)
          case Success(to) =>
            if from.None? && (!newFile || path != to) then Failure(Malformed)
            else if from.Some? && (newFile || from.value != to || path != from.value) then Failure(Malformed)
            else if !Under(path, c.allowed) || Under(path, c.forbidden) then Failure(PathForbidden)
            else match c.target(path)
              case Some(reason) => Failure(reason)
              case None => Success(path)
  }

  // ---- Parsing ----

  /** The header made of the first lines, with or without the two optional ones. */
  function HeaderAt(rest: seq<string>, hasMode: bool, hasIndex: bool): (h: Header)
    requires |rest| > 1 + (if hasMode then 1 else 0) + (if hasIndex then 1 else 0)
    ensures |HeaderLines(h)| == 2 + (if hasMode then 1 else 0) + (if hasIndex then 1 else 0)
    ensures HeaderLines(h) == rest[..|HeaderLines(h)|]
  {
    var i := if hasMode then 2 else 1;
    Header(rest[0], if hasMode then Some(rest[1]) else None, if hasIndex then Some(rest[i]) else None,
           rest[if hasIndex then i + 1 else i])
  }

  /** Everything `parse_patch` checks from a `diff --git` line up to the `+++ ` line, which
      stands right after the header lines. */
  function ParseHeader(c: Contract, rest: seq<string>): (r: Result<(Header, string), Reason>)
    requires rest != []
    ensures r.Success? ==> |HeaderLines(r.value.0)| < |rest| && HeaderLines(r.value.0) == rest[..|HeaderLines(r.value.0)|]
  {
    match GitPath(rest[0])
    case Failure(e) => Failure(e)
    case Success(path) =>
      var hasMode := |rest| > 1 && IsModeLine(rest[1]);
      if hasMode && rest[1] != "new file mode 100644\n" then Failure(ModeForbidden) else
        var i := if hasMode then 2 else 1;
        var hasIndex := i < |rest| && IsIndexLine(rest[i]);
        if hasIndex && !IndexAllowed(rest[i], hasMode) then Failure(ModeForbidden) else
          var j := if hasIndex then i + 1 else i;
          if j >= |rest| then Failure(Malformed)
          else if ChangesMore(rest[j]) then
            (if StartsWith(rest[j], "deleted") then Failure(DeletionForbidden) else Failure(ModeForbidden))
          else
            match Targeted(c, path, hasMode, rest[j], if j + 1 < |rest| then Some(rest[j + 1]) else None)
            case Failure(e) => Failure(e)
            case Success(target) =>
              Success((HeaderAt(rest, hasMode, hasIndex), target))
  }

  /** The lines of a hunk up to the next line that stops it. */
  function ParseBody(rest: seq<string>): (r: Result<seq<string>, Reason>)
    ensures r.Success? ==> r.value <= rest
  {
    if rest == [] || Stops(rest[0]) then Success([])
    else if !InBody(rest[0]) then Failure(Malformed)
    else match ParseBody(rest[1..])
      case Failure(e) => Failure(e)
      case Success(body) => Success([rest[0]] + body)
  }

  /** The hunk loop: it looks one line past the current one, whatever the current one is. */
  function ParsePieces(rest: seq<string>): (r: Result<seq<Piece>, Reason>)
    ensures r.Success? ==> |PiecesLines(r.value)| <= |rest|
  {
    if |rest| < 2 || !StartsHunk(rest[1]) then Success([])
    else if !HunkHeader(rest[1]) then Failure(Malformed)
    else match ParseBody(rest[2..])
      case Failure(e) => Failure(e)
      case Success(body) =>
        match ParsePieces(rest[2 + |body|..])
        case Failure(e) => Failure(e)
        case Success(pieces) =>
          var p := Piece(rest[0], rest[1], body);
          Success([p] + pieces)
  }

  function ParseSections(c: Contract, rest: seq<string>): Result<seq<Section>, Reason> {
    if rest == [] then Success([])
    else match ParseHeader(c, rest)
      case Failure(e) => Failure(e)
      case Success((header, target)) =>
        var after := rest[|HeaderLines(header)|..];
        match ParsePieces(after)
        case Failure(e) => Failure(e)
        case Success(pieces) =>
          if pieces == [] then Failure(Malformed)
          else match ParseSections(c, after[|PiecesLines(pieces)|..])
            case Failure(e) => Failure(e)
            case Success(sections) => Success([Section(header, target, pieces)] + sections)
  }

  function Targets(sections: seq<Section>): (r: seq<string>)
    ensures |r| == |sections| && forall i :: 0 <= i < |r| ==> r[i] == sections[i].target
  {
    seq(|sections|, i requires 0 <= i < |sections| => sections[i].target)
  }

  /** Lines that begin with a plus or a minus sign. */
  function SignedLines(lines: seq<string>): nat {
    if lines == [] then 0 else (if Signed(lines[0]) then 1 else 0) + SignedLines(lines[1..])
  }

  function PiecesChanged(pieces: seq<Piece>): nat {
    if pieces == [] then 0 else SignedLines(pieces[0].body) + PiecesChanged(pieces[1..])
  }

  function Changed(sections: seq<Section>): nat {
    if sections == [] then 0 else PiecesChanged(sections[0].pieces) + Changed(sections[1..])
  }

  function Path(path: string): string { path }

  /** The limits and the result, once every section is parsed. */
  function Concluded(c: Contract, files: seq<string>, changed: nat): Result<seq<string>, Reason> {
    if !Ordering.Distinct(files, Path) || |files| > c.maxFiles then Failure(FileLimit)
    else if changed > c.maxDiffLines then Failure(LineLimit)
    else Success(Ordering.Sort(files, Path))
  }

  predicate Binary(text: string) {
    Contains(text, "GIT binary patch") || Contains(text, "Binary files ")
  }

  /** `parse_patch` */
  function Parsed(c: Contract, text: string): Result<seq<string>, Reason> {
    if text == [] then Failure(Malformed)
    else if Binary(text) then Failure(BinaryForbidden)
    else match ParseSections(c, Lines(text))
      case Failure(e) => Failure(e)
      case Success(sections) => Concluded(c, Targets(sections), Changed(sections))
  }

  // ---- The grammar ----

  predicate ValidPiece(p: Piece) {
    HunkHeader(p.header) && forall i :: 0 <= i < |p.body| ==> InBody(p.body[i])
  }

  predicate ValidPieces(pieces: seq<Piece>) {
    && (forall k :: 0 <= k < |pieces| ==> ValidPiece(pieces[k]))
    && (forall k :: 1 <= k < |pieces| ==> Stops(pieces[k].before))
  }

  predicate ValidHeader(h: Header, target: string) {
    && GitPath(h.git) == Success(target)
    && (h.mode.Some? ==> h.mode.value == "new file mode 100644\n")
    && (h.index.Some? ==> IsIndexLine(h.index.value) && IndexAllowed(h.index.value, h.mode.Some?))
  }

  predicate ValidSection(c: Contract, s: Section) {
    && ValidHeader(s.header, s.target)
    && s.pieces != [] && ValidPieces(s.pieces)
    && Targeted(c, s.target, s.header.mode.Some?, s.header.minus, Some(s.pieces[0].before)) == Success(s.target)
  }

  predicate ValidSections(c: Contract, sections: seq<Section>) {
    forall i :: 0 <= i < |sections| ==> ValidSection(c, sections[i])
  }

  /** The first character decides what a line is. */
  lemma LineKinds(line: string)
    ensures InBody(line) ==> !Stops(line)
    ensures StartsWith(line, "--- ") || IsModeLine(line) || IsIndexLine(line) ==> !StartsHunk(line)
    ensures StartsWith(line, "--- ") ==> !IsModeLine(line) && !IsIndexLine(line) && !ChangesMore(line)
    ensures IsIndexLine(line) ==> !IsModeLine(line)
    ensures Stops(line) || IsModeLine(line) || IsIndexLine(line) ==> !Signed(line)
  {
    if line != [] {
      var c := line[0];
      assert StartsWith(line, " ") ==> c == ' ';
      assert StartsWith(line, "+") ==> c == '+';
      assert StartsWith(line, "-") ==> c == '-';
      assert StartsWith(line, "--- ") ==> c == '-';
      assert StartsHunk(line) ==> c == '@';
      assert StartsWith(line, "diff --git ") ==> c == 'd';
      assert IsModeLine(line) ==> c == 'n';
      assert IsIndexLine(line) ==> c == 'i';
      assert StartsWith(line, "old mode ") ==> c == 'o';
      assert StartsWith(line, "new mode ") ==> c == 'n';
      assert StartsWith(line, "deleted file mode ") ==> c == 'd';
      assert StartsWith(line, "similarity index ") ==> c == 's';
      assert StartsWith(line, "rename ") ==> c == 'r';
      assert StartsWith(line, "copy ") ==> c == 'c';
    }
  }

  lemma GitLines(line: string)
    requires GitPath(line).Success?
    ensures Stops(line)
  {
    assert line[..11] == line[..13][..11];
    assert "diff --git a/"[..11] == "diff --git ";
  }

  lemma HunkHeaderStarts(line: string)
    requires HunkHeader(line)
    ensures StartsHunk(line)
  {
    assert line[..3] == line[..4][..3];
    assert "@@ -"[..3] == "@@ ";
  }

  lemma {:induction false} BodySound(rest: seq<string>)
    requires ParseBody(rest).Success?
    ensures var body := ParseBody(rest).value;
      && (forall i :: 0 <= i < |body| ==> InBody(body[i]))
      && (|body| == |rest| || Stops(rest[|body|]))
  {
    hide InBody, Stops;
    if rest != [] && !Stops(rest[0]) {
      BodySound(rest[1..]);
    }
  }

  lemma {:induction false} BodyComplete(body: seq<string>, tail: seq<string>)
    requires forall i :: 0 <= i < |body| ==> InBody(body[i])
    requires tail == [] || Stops(tail[0])
    ensures ParseBody(body + tail) == Success(body)
  {
    hide InBody, Stops;
    if body == [] {
      assert body + tail == tail;
    } else {
      LineKinds(body[0]);
      BodyComplete(body[1..], tail);
      assert (body + tail)[1..] == body[1..] + tail;
      assert [body[0]] + body[1..] == body;
    }
  }

  lemma {:induction false} PiecesPrefix(rest: seq<string>)
    requires ParsePieces(rest).Success?
    ensures PiecesLines(ParsePieces(rest).value) <= rest
  {
    hide InBody, Stops, HunkHeader, StartsHunk, ParseBody;
    if |rest| >= 2 && StartsHunk(rest[1]) {
      var body := ParseBody(rest[2..]).value;
      var after := rest[2 + |body|..];
      PiecesPrefix(after);
      assert PieceLines(Piece(rest[0], rest[1], body)) == rest[..2 + |body|];
      assert rest == rest[..2 + |body|] + after;
    }
  }

  lemma ConsPieces(p: Piece, pieces: seq<Piece>)
    requires ValidPiece(p) && ValidPieces(pieces) && (pieces != [] ==> Stops(pieces[0].before))
    ensures ValidPieces([p] + pieces)
    ensures PiecesLines([p] + pieces) == PieceLines(p) + PiecesLines(pieces)
  {
    hide ValidPiece, Stops;
    assert ([p] + pieces)[1..] == pieces;
  }

  lemma {:induction false} PiecesSound(rest: seq<string>)
    requires ParsePieces(rest).Success?
    ensures var pieces := ParsePieces(rest).value;
      && ValidPieces(pieces)
      && (pieces != [] ==> pieces[0].before == rest[0])
      && (pieces != [] ==> |PiecesLines(pieces)| == |rest| || Stops(rest[|PiecesLines(pieces)|]))
  {
    hide InBody, Stops, HunkHeader, StartsHunk, ParseBody, ValidPieces;
    if |rest| >= 2 && StartsHunk(rest[1]) {
      var body := ParseBody(rest[2..]).value;
      BodySound(rest[2..]);
      var after := rest[2 + |body|..];
      PiecesSound(after);
      var p, pieces := Piece(rest[0], rest[1], body), ParsePieces(after).value;
      assert ValidPiece(p);
      assert |body| < |rest[2..]| ==> rest[2..][|body|] == after[0];
      ConsPieces(p, pieces);
    } else {
      assert ValidPieces([]) by { NoValidPieces(); }
    }
  }

  lemma NoValidPieces()
    ensures ValidPieces([])
  {
  }

  lemma {:induction false} PiecesComplete(pieces: seq<Piece>, tail: seq<string>)
    requires ValidPieces(pieces)
    requires tail == [] || (Stops(tail[0]) && (|tail| == 1 || !StartsHunk(tail[1])))
    ensures ParsePieces(PiecesLines(pieces) + tail) == Success(pieces)
  {
    hide InBody, Stops, HunkHeader, StartsHunk, ParseBody, ValidPieces, ParsePieces, PieceLines;
    if pieces == [] {
      assert [] + tail == tail;
      NoPieces(tail);
    } else {
      var p, after := pieces[0], PiecesLines(pieces[1..]) + tail;
      FirstValid(pieces);
      NextStops(pieces, tail);
      PiecesComplete(pieces[1..], tail);
      OnePiece(p, after);
      assert PiecesLines(pieces) + tail == PieceLines(p) + after;
      assert [p] + pieces[1..] == pieces;
    }
  }

  lemma NoPieces(tail: seq<string>)
    requires |tail| < 2 || !StartsHunk(tail[1])
    ensures ParsePieces(tail) == Success([])
  {
  }

  lemma FirstValid(pieces: seq<Piece>)
    requires pieces != [] && ValidPieces(pieces)
    ensures ValidPiece(pieces[0])
  {
  }

  /** What follows the first piece ends its body. */
  lemma NextStops(pieces: seq<Piece>, tail: seq<string>)
    requires pieces != [] && ValidPieces(pieces) && (tail == [] || Stops(tail[0]))
    ensures var after := PiecesLines(pieces[1..]) + tail;
      after == [] || Stops(after[0])
    ensures ValidPieces(pieces[1..])
  {
    hide Stops, ValidPiece;
    if |pieces| > 1 {
      assert pieces[1..][0] == pieces[1];
      assert PieceLines(pieces[1])[0] == pieces[1].before;
    } else {
      assert PiecesLines(pieces[1..]) == [];
    }
  }

  lemma OnePiece(p: Piece, after: seq<string>)
    requires ValidPiece(p) && (after == [] || Stops(after[0])) && ParsePieces(after).Success?
    ensures ParsePieces(PieceLines(p) + after) == Success([p] + ParsePieces(after).value)
  {
    hide InBody, Stops, HunkHeader, StartsHunk, ParseBody;
    var rest := PieceLines(p) + after;
    HunkHeaderStarts(p.header);
    assert rest == [p.before, p.header] + (p.body + after);
    assert rest[2..] == p.body + after;
    BodyComplete(p.body, after);
    assert rest[2 + |p.body|..] == after;
  }

  lemma HeaderSound(c: Contract, rest: seq<string>)
    requires rest != [] && ParseHeader(c, rest).Success?
    ensures var (h, target) := ParseHeader(c, rest).value;
      && ValidHeader(h, target)
      && Targeted(c, target, h.mode.Some?, h.minus, Some(rest[|HeaderLines(h)|])) == Success(target)
  {
    hide GitPath, Targeted, IsModeLine, IsIndexLine, IndexAllowed, ChangesMore, StartsWith;
    TargetedIs(c);
  }

  lemma TargetedIs(c: Contract)
    ensures forall path, newFile, minus, plus :: Targeted(c, path, newFile, minus, plus).Success? ==>
      Targeted(c, path, newFile, minus, plus) == Success(path) && plus.Some?
  {
    hide StartsWith, Under, PatchPath, PatchPathOrNull, StripNewlines;
  }

  lemma TargetedStarts(c: Contract, path: string, newFile: bool, minus: string, plus: string)
    requires Targeted(c, path, newFile, minus, Some(plus)).Success?
    ensures StartsWith(minus, "--- ") && StartsWith(plus, "+++ ")
    ensures Under(path, c.allowed) && !Under(path, c.forbidden) && c.target(path) == None
  {
    hide StartsWith, Under, PatchPath, PatchPathOrNull, StripNewlines;
  }

  lemma HeaderComplete(c: Contract, h: Header, target: string, rest: seq<string>)
    requires ValidHeader(h, target)
    requires HeaderLines(h) < rest
    requires Targeted(c, target, h.mode.Some?, h.minus, Some(rest[|HeaderLines(h)|])) == Success(target)
    ensures ParseHeader(c, rest) == Success((h, target))
  {
    hide GitPath, Targeted, IsModeLine, IsIndexLine, IndexAllowed, ChangesMore, StartsWith;
    var lines := HeaderLines(h);
    assert forall i :: 0 <= i < |lines| ==> rest[i] == lines[i];
    TargetedStarts(c, target, h.mode.Some?, h.minus, rest[|lines|]);
    LineKinds(h.minus);
    if h.mode.Some? {
      ModeLine();
    }
    if h.index.Some? {
      LineKinds(h.index.value);
    }
  }

  lemma ModeLine()
    ensures IsModeLine("new file mode 100644\n")
  {
    assert "new file mode 100644\n"[..14] == "new file mode ";
  }

  /** A section's lines begin in a way that ends the section before it. */
  lemma SectionStart(c: Contract, s: Section)
    requires ValidSection(c, s)
    ensures Stops(SectionLines(s)[0]) && !StartsHunk(SectionLines(s)[1])
  {
    hide GitPath, Targeted, IsModeLine, IsIndexLine, IndexAllowed, StartsWith, StartsHunk, Stops, ValidPieces;
    var h := s.header;
    GitLines(h.git);
    TargetedStarts(c, s.target, h.mode.Some?, h.minus, s.pieces[0].before);
    LineKinds(h.minus);
    if h.mode.Some? {
      ModeLine();
      NotAHunk(h.mode.value);
    }
    if h.index.Some? {
      LineKinds(h.index.value);
    }
    assert SectionLines(s)[1] == HeaderLines(h)[1];
  }

  lemma NotAHunk(line: string)
    requires IsModeLine(line)
    ensures !StartsHunk(line)
  {
    LineKinds(line);
  }

  lemma {:induction false} SectionsSound(c: Contract, rest: seq<string>)
    requires ParseSections(c, rest).Success?
    ensures ValidSections(c, ParseSections(c, rest).value) && PatchLines(ParseSections(c, rest).value) == rest
  {
    hide ParseHeader, ParsePieces, HeaderLines, PiecesLines, Targeted, ValidHeader, ValidPieces;
    if rest != [] {
      HeaderSound(c, rest);
      var (h, target) := ParseHeader(c, rest).value;
      var after := rest[|HeaderLines(h)|..];
      PiecesSound(after);
      PiecesPrefix(after);
      var pieces := ParsePieces(after).value;
      var later := after[|PiecesLines(pieces)|..];
      SectionsSound(c, later);
      var s := Section(h, target, pieces);
      assert ValidSection(c, s);
      assert SectionLines(s) + later == rest;
      assert ([s] + ParseSections(c, later).value)[1..] == ParseSections(c, later).value;
    }
  }

  /** Parsed sections in front of the outcome of the rest. */
  function InFront(sections: seq<Section>, rest: Result<seq<Section>, Reason>): Result<seq<Section>, Reason> {
    match rest
    case Failure(e) => Failure(e)
    case Success(more) => Success(sections + more)
  }

  /** Lines at which a section before them is over. */
  predicate Ends(later: seq<string>) {
    later == [] || (Stops(later[0]) && (|later| == 1 || !StartsHunk(later[1])))
  }

  /** Valid sections are taken, whatever becomes of the lines after them. */
  lemma {:induction false} SectionsTaken(c: Contract, sections: seq<Section>, later: seq<string>)
    requires ValidSections(c, sections) && Ends(later)
    ensures ParseSections(c, PatchLines(sections) + later) == InFront(sections, ParseSections(c, later))
  {
    hide ParseHeader, ParsePieces, HeaderLines, PiecesLines, ValidSection, Stops, StartsHunk, SectionLines, ParseSections;
    if sections == [] {
      assert [] + later == later;
      NoneInFront(ParseSections(c, later));
    } else {
      var s, rest := sections[0], PatchLines(sections[1..]) + later;
      SectionsTaken(c, sections[1..], later);
      if |sections| > 1 {
        assert sections[1..][0] == sections[1];
        SectionStart(c, sections[1]);
      } else {
        assert rest == later;
      }
      OneSection(c, s, rest);
      assert PatchLines(sections) + later == SectionLines(s) + rest;
      assert [s] + sections[1..] == sections;
      InFrontTwice(s, sections[1..], ParseSections(c, later));
    }
  }

  lemma NoneInFront(rest: Result<seq<Section>, Reason>)
    ensures InFront([], rest) == rest
  {
    if rest.Success? {
      assert [] + rest.value == rest.value;
    }
  }

  lemma InFrontTwice(s: Section, sections: seq<Section>, rest: Result<seq<Section>, Reason>)
    ensures InFront([s], InFront(sections, rest)) == InFront([s] + sections, rest)
  {
    if rest.Success? {
      assert [s] + (sections + rest.value) == ([s] + sections) + rest.value;
    }
  }

  lemma OneSection(c: Contract, s: Section, later: seq<string>)
    requires ValidSection(c, s) && Ends(later)
    ensures ParseSections(c, SectionLines(s) + later) == InFront([s], ParseSections(c, later))
  {
    hide ParseHeader, ParsePieces, HeaderLines, PiecesLines, Targeted, ValidHeader, ValidPieces, Stops, StartsHunk;
    var rest := SectionLines(s) + later;
    var after := PiecesLines(s.pieces) + later;
    assert rest == HeaderLines(s.header) + after;
    assert rest[|HeaderLines(s.header)|..] == after;
    FirstLine(s.pieces);
    HeaderComplete(c, s.header, s.target, rest);
    PiecesComplete(s.pieces, later);
    assert after[|PiecesLines(s.pieces)|..] == later;
  }

  lemma FirstLine(pieces: seq<Piece>)
    requires pieces != []
    ensures PiecesLines(pieces) != [] && PiecesLines(pieces)[0] == pieces[0].before
  {
    assert PieceLines(pieces[0])[0] == pieces[0].before;
  }

  /** The exact language: the parser accepts these sections precisely when the lines of the
      patch are theirs, one after another, and each is valid. */
  lemma ParseIffGrammar(c: Contract, lines: seq<string>, sections: seq<Section>)
    ensures ParseSections(c, lines) == Success(sections) <==> ValidSections(c, sections) && lines == PatchLines(sections)
  {
    hide ValidSections;
    if ParseSections(c, lines) == Success(sections) {
      SectionsSound(c, lines);
    }
    if ValidSections(c, sections) && lines == PatchLines(sections) {
      SectionsTaken(c, sections, []);
      assert PatchLines(sections) + [] == lines && sections + [] == sections;
    }
  }

  /** An ordinary second hunk is never accepted: after complete sections, a hunk header that
      is not followed by yet another one ends the parse.  The loop looks one line past the
      current one, and after a hunk the current line is already the next header. */
  lemma SecondHunkRejected(c: Contract, sections: seq<Section>, second: string, more: seq<string>)
    requires ValidSections(c, sections) && sections != []
    requires StartsHunk(second) && (more == [] || !StartsHunk(more[0]))
    ensures ParseSections(c, PatchLines(sections) + ([second] + more)) == Failure(Malformed)
  {
    hide ValidSections, PatchLines, ParseSections, StartsHunk, Stops;
    var later := [second] + more;
    HunkIsStop(second);
    SectionsTaken(c, sections, later);
    NoSectionStarts(c, later);
  }

  lemma NoSectionStarts(c: Contract, later: seq<string>)
    requires later != [] && StartsHunk(later[0])
    ensures ParseSections(c, later) == Failure(Malformed)
  {
    hide ParsePieces, Targeted;
    assert later[0][0] == '@';
    assert !StartsWith(later[0], "diff --git a/") by {
      if StartsWith(later[0], "diff --git a/") {
        SameFirst(later[0], "diff --git a/");
      }
    }
    assert GitPath(later[0]) == Failure(Malformed);
  }

  // ---- Accounting ----

  lemma {:induction false} SignedJoin(a: seq<string>, b: seq<string>)
    ensures SignedLines(a + b) == SignedLines(a) + SignedLines(b)
  {
    hide Signed;
    if a == [] {
      assert a + b == b;
    } else {
      SignedJoin(a[1..], b);
      assert (a + b)[1..] == a[1..] + b;
    }
  }

  lemma SignedOne(line: string)
    ensures SignedLines([line]) == (if Signed(line) then 1 else 0)
  {
    assert SignedLines([line][1..]) == 0;
  }

  /** Only the `+++ ` line before its first hunk and its body add signed lines. */
  lemma {:induction false} SignedPieces(pieces: seq<Piece>)
    requires ValidPieces(pieces) && pieces != []
    ensures SignedLines(PiecesLines(pieces)) == (if Signed(pieces[0].before) then 1 else 0) + PiecesChanged(pieces)
  {
    hide Signed, Stops, StartsHunk, HunkHeader, InBody;
    var p := pieces[0];
    FirstValid(pieces);
    HunkHeaderStarts(p.header);
    HunkIsStop(p.header);
    LineKinds(p.header);
    SignedOne(p.before);
    SignedOne(p.header);
    SignedJoin([p.before], [p.header]);
    assert [p.before, p.header] == [p.before] + [p.header];
    SignedJoin([p.before, p.header], p.body);
    SignedJoin(PieceLines(p), PiecesLines(pieces[1..]));
    if |pieces| > 1 {
      assert pieces[1..][0] == pieces[1];
      LineKinds(pieces[1].before);
      NextStops(pieces, []);
      SignedPieces(pieces[1..]);
    } else {
      assert pieces[1..] == [];
    }
  }

  lemma HunkIsStop(line: string)
    ensures StartsHunk(line) ==> Stops(line)
  {
  }

  lemma SignedHeader(c: Contract, s: Section)
    requires ValidSection(c, s)
    ensures SignedLines(HeaderLines(s.header)) == 1 && Signed(s.pieces[0].before)
  {
    hide Signed, Stops, GitPath, Targeted, IndexAllowed, IsModeLine, IsIndexLine, StartsWith, ValidPieces;
    var h := s.header;
    TargetedStarts(c, s.target, h.mode.Some?, h.minus, s.pieces[0].before);
    DashesAreSigned(h.minus, s.pieces[0].before);
    GitLines(h.git);
    LineKinds(h.git);
    SignedOne(h.git);
    SignedOne(h.minus);
    if h.mode.Some? {
      ModeLine();
      LineKinds(h.mode.value);
      SignedOne(h.mode.value);
    }
    if h.index.Some? {
      LineKinds(h.index.value);
      SignedOne(h.index.value);
    }
    SignedJoin([h.git], Optional(h.mode));
    SignedJoin([h.git] + Optional(h.mode), Optional(h.index));
    SignedJoin([h.git] + Optional(h.mode) + Optional(h.index), [h.minus]);
  }

  lemma DashesAreSigned(minus: string, plus: string)
    requires StartsWith(minus, "--- ") && StartsWith(plus, "+++ ")
    ensures Signed(minus) && Signed(plus)
  {
    assert minus[..1] == minus[..4][..1] && plus[..1] == plus[..4][..1];
    assert "--- "[..1] == "-" && "+++ "[..1] == "+";
  }

  /** Every signed line of an accepted patch is a counted change or one of the two header
      lines of a file. */
  lemma {:induction false} SignedSections(c: Contract, sections: seq<Section>)
    requires ValidSections(c, sections)
    ensures SignedLines(PatchLines(sections)) == Changed(sections) + 2 * |sections|
  {
    hide Signed, ValidPieces, ValidHeader, Targeted;
    if sections != [] {
      var s := sections[0];
      SignedHeader(c, s);
      SignedPieces(s.pieces);
      SignedJoin(HeaderLines(s.header), PiecesLines(s.pieces));
      SignedJoin(SectionLines(s), PatchLines(sections[1..]));
      SignedSections(c, sections[1..]);
    }
  }

  // ---- What acceptance means ----

  /** A path the contract lets a patch change. */
  predicate Permitted(c: Contract, path: string) {
    SafePath(path) && Under(path, c.allowed) && !Under(path, c.forbidden) && c.target(path) == None
  }

  lemma TargetPermitted(c: Contract, s: Section)
    requires ValidSection(c, s)
    ensures Permitted(c, s.target)
  {
    hide SafePath, Under, ValidPieces, IndexAllowed, IsIndexLine, Targeted;
    TargetedStarts(c, s.target, s.header.mode.Some?, s.header.minus, s.pieces[0].before);
  }

  lemma TargetsPermitted(c: Contract, sections: seq<Section>)
    requires ValidSections(c, sections)
    ensures forall i :: 0 <= i < |Targets(sections)| ==> Permitted(c, Targets(sections)[i])
  {
    hide Permitted;
    forall i | 0 <= i < |sections| ensures Permitted(c, Targets(sections)[i]) {
      TargetPermitted(c, sections[i]);
    }
  }

  /** What sections and limits make a patch acceptable, with these files as the result.  The
      changes are counted over the raw lines, where each file adds two that are none. */
  ghost predicate Acceptable(c: Contract, lines: seq<string>, sections: seq<Section>, files: seq<string>) {
    && ValidSections(c, sections) && lines == PatchLines(sections)
    && Ordering.Distinct(Targets(sections), Path) && |sections| <= c.maxFiles
    && SignedLines(lines) <= c.maxDiffLines + 2 * |sections|
    && files == Ordering.Sort(Targets(sections), Path)
  }

  ghost predicate AcceptableLines(c: Contract, lines: seq<string>, files: seq<string>) {
    exists sections :: Acceptable(c, lines, sections, files)
  }

  lemma ConcludedAcceptable(c: Contract, lines: seq<string>, files: seq<string>)
    requires ParseSections(c, lines).Success?
    requires var sections := ParseSections(c, lines).value;
      Concluded(c, Targets(sections), Changed(sections)) == Success(files)
    ensures AcceptableLines(c, lines, files)
  {
    hide ValidSections, ParseSections, PatchLines, SignedLines, Changed;
    var sections := ParseSections(c, lines).value;
    ParseIffGrammar(c, lines, sections);
    SignedSections(c, sections);
    assert Acceptable(c, lines, sections, files);
  }

  lemma AcceptableConcluded(c: Contract, lines: seq<string>, sections: seq<Section>, files: seq<string>)
    requires Acceptable(c, lines, sections, files)
    ensures ParseSections(c, lines) == Success(sections)
    ensures Concluded(c, Targets(sections), Changed(sections)) == Success(files)
  {
    hide ValidSections, ParseSections, PatchLines, SignedLines, Changed;
    ParseIffGrammar(c, lines, sections);
    SignedSections(c, sections);
  }

  /** The parser accepts exactly the texts that are not empty, not binary, and split into
      the lines of acceptable sections. */
  lemma AcceptedIff(c: Contract, text: string, files: seq<string>)
    ensures Parsed(c, text) == Success(files) <==> text != [] && !Binary(text) && AcceptableLines(c, Lines(text), files)
  {
    hide Binary, ParseSections, Changed, Concluded, Acceptable, AcceptableLines;
    if Parsed(c, text) == Success(files) {
      ConcludedAcceptable(c, Lines(text), files);
    }
    if AcceptableLines(c, Lines(text), files) {
      var sections := SomeAcceptable(c, Lines(text), files);
      AcceptableConcluded(c, Lines(text), sections, files);
    }
  }

  lemma SomeAcceptable(c: Contract, lines: seq<string>, files: seq<string>) returns (sections: seq<Section>)
    requires AcceptableLines(c, lines, files)
    ensures Acceptable(c, lines, sections, files)
  {
    sections :| Acceptable(c, lines, sections, files);
  }

  /** The result's order and contents, and what each path in it may be. */
  ghost predicate GoodFiles(c: Contract, files: seq<string>, targets: seq<string>) {
    && multiset(files) == multiset(targets) && |files| == |targets|
    && Ordering.Sorted(files, Path) && Ordering.Distinct(files, Path)
    && forall i :: 0 <= i < |files| ==> Permitted(c, files[i])
  }

  lemma SortedTargets(c: Contract, sections: seq<Section>)
    requires ValidSections(c, sections) && Ordering.Distinct(Targets(sections), Path)
    ensures GoodFiles(c, Ordering.Sort(Targets(sections), Path), Targets(sections))
  {
    hide Permitted, ValidSections, Ordering.Sorted, Ordering.Distinct, Ordering.Sort;
    var targets := Targets(sections);
    var files := Ordering.Sort(targets, Path);
    Ordering.SortSorted(targets, Path);
    Ordering.SortDistinct(targets, Path);
    TargetsPermitted(c, sections);
    forall i | 0 <= i < |files| ensures Permitted(c, files[i]) {
      Ordering.SameMember(files, targets, files[i]);
    }
  }

  lemma ParsedIsConcluded(c: Contract, text: string)
    requires Parsed(c, text).Success?
    ensures text != [] && ParseSections(c, Lines(text)).Success?
    ensures var sections := ParseSections(c, Lines(text)).value;
      Parsed(c, text) == Concluded(c, Targets(sections), Changed(sections))
  {
    hide Binary, ParseSections, Changed, Concluded, Lines;
  }

  lemma ConcludedMeans(c: Contract, files: seq<string>, changed: nat)
    requires Concluded(c, files, changed).Success?
    ensures Ordering.Distinct(files, Path) && |files| <= c.maxFiles && changed <= c.maxDiffLines
    ensures Concluded(c, files, changed).value == Ordering.Sort(files, Path)
  {
    hide Ordering.Distinct;
  }

  /** An accepted patch is a list of valid sections and nothing else.  Its signed lines are
      its counted changes and two header lines a file, both limits hold, and the returned
      paths are the sections' targets: sorted, distinct and each permitted. */
  lemma AcceptedPatch(c: Contract, text: string)
    requires Parsed(c, text).Success?
    ensures var files, sections := Parsed(c, text).value, ParseSections(c, Lines(text)).value;
      && ValidSections(c, sections) && Concat(PatchLines(sections)) == text
      && SignedLines(Lines(text)) == Changed(sections) + 2 * |files|
      && 0 < |files| <= c.maxFiles && Changed(sections) <= c.maxDiffLines
      && GoodFiles(c, files, Targets(sections))
  {
    hide Lines, GoodFiles, ValidSections, SignedLines, Concat, PatchLines, Changed, ParseSections, Concluded, Parsed,
      Ordering.Distinct, Ordering.Sort;
    ParsedIsConcluded(c, text);
    var sections := ParseSections(c, Lines(text)).value;
    ConcludedMeans(c, Targets(sections), Changed(sections));
    ParseIffGrammar(c, Lines(text), sections);
    LinesConcat(text);
    SignedSections(c, sections);
    SortedTargets(c, sections);
    NoSectionsNoLines(sections);
  }

  lemma NoSectionsNoLines(sections: seq<Section>)
    ensures PatchLines(sections) == [] <==> sections == []
  {
  }

  // ---- The parser as the program runs it ----

  /** The innermost loop: a hunk body. */
  method ReadBody(lines: seq<string>, start: nat) returns (i: nat, changed: nat, error: Option<Reason>)
    requires start <= |lines|
    ensures match ParseBody(lines[start..])
            case Failure(e) => error == Some(e)
            case Success(body) => error == None && i == start + |body| && changed == SignedLines(body)
  {
    hide Stops, InBody, Signed;
    i, changed, error := start, 0, None;
    ghost var body: seq<string> := [];
    NoBodyInFront(ParseBody(lines[start..]));
    while i < |lines| && !Stops(lines[i])
      invariant start <= i <= |lines| && body == lines[start..i] && changed == SignedLines(body)
      invariant ParseBody(lines[start..]) == BodyInFront(body, ParseBody(lines[i..]))
    {
      if !InBody(lines[i]) {
        return i, changed, Some(Malformed);
      }
      BodyStep(body, lines[i..]);
      SignedJoin(body, [lines[i]]);
      SignedOne(lines[i]);
      body := body + [lines[i]];
      if Signed(lines[i]) {
        changed := changed + 1;
      }
      i := i + 1;
    }
    assert body + [] == body;
  }

  function BodyInFront(body: seq<string>, rest: Result<seq<string>, Reason>): Result<seq<string>, Reason> {
    match rest
    case Failure(e) => Failure(e)
    case Success(more) => Success(body + more)
  }

  lemma NoBodyInFront(rest: Result<seq<string>, Reason>)
    ensures BodyInFront([], rest) == rest
  {
    if rest.Success? {
      assert [] + rest.value == rest.value;
    }
  }

  lemma BodyStep(body: seq<string>, rest: seq<string>)
    requires rest != [] && !Stops(rest[0]) && InBody(rest[0])
    ensures BodyInFront(body, ParseBody(rest)) == BodyInFront(body + [rest[0]], ParseBody(rest[1..]))
  {
    hide Stops, InBody;
    if ParseBody(rest[1..]).Success? {
      assert body + ([rest[0]] + ParseBody(rest[1..]).value) == (body + [rest[0]]) + ParseBody(rest[1..]).value;
    }
  }

  function PiecesInFront(pieces: seq<Piece>, rest: Result<seq<Piece>, Reason>): Result<seq<Piece>, Reason> {
    match rest
    case Failure(e) => Failure(e)
    case Success(more) => Success(pieces + more)
  }

  lemma NoPiecesInFront(rest: Result<seq<Piece>, Reason>)
    ensures PiecesInFront([], rest) == rest
  {
    if rest.Success? {
      assert [] + rest.value == rest.value;
    }
  }

  lemma PiecesStep(pieces: seq<Piece>, rest: seq<string>)
    requires |rest| >= 2 && StartsHunk(rest[1]) && HunkHeader(rest[1]) && ParseBody(rest[2..]).Success?
    ensures var body := ParseBody(rest[2..]).value;
      PiecesInFront(pieces, ParsePieces(rest))
      == PiecesInFront(pieces + [Piece(rest[0], rest[1], body)], ParsePieces(rest[2 + |body|..]))
  {
    hide StartsHunk, HunkHeader, ParseBody;
    var body := ParseBody(rest[2..]).value;
    var p, tail := Piece(rest[0], rest[1], body), ParsePieces(rest[2 + |body|..]);
    if tail.Success? {
      assert pieces + ([p] + tail.value) == (pieces + [p]) + tail.value;
    }
  }

  lemma {:induction false} PiecesAppend(pieces: seq<Piece>, p: Piece)
    ensures |PiecesLines(pieces + [p])| == |PiecesLines(pieces)| + 2 + |p.body|
    ensures PiecesChanged(pieces + [p]) == PiecesChanged(pieces) + SignedLines(p.body)
  {
    if pieces == [] {
      assert pieces + [p] == [p] && [p][1..] == [];
    } else {
      PiecesAppend(pieces[1..], p);
      assert (pieces + [p])[1..] == pieces[1..] + [p];
    }
  }

  /** The hunk loop; `start` is the cursor at the `+++ ` line. */
  method ReadPieces(lines: seq<string>, start: nat) returns (i: nat, hunkSeen: bool, changed: nat, error: Option<Reason>)
    requires start < |lines|
    ensures match ParsePieces(lines[start..])
            case Failure(e) => error == Some(e)
            case Success(pieces) =>
              && error == None && i == start + |PiecesLines(pieces)|
              && hunkSeen == (pieces != []) && changed == PiecesChanged(pieces)
  {
    hide StartsHunk, HunkHeader, ParseBody, PiecesLines, PiecesChanged, SignedLines, ParsePieces;
    i, hunkSeen, changed, error := start, false, 0, None;
    ghost var pieces: seq<Piece> := [];
    NoPiecesInFront(ParsePieces(lines[start..]));
    EmptyPieces();
    while i + 1 < |lines| && StartsHunk(lines[i + 1])
      invariant start <= i <= |lines| && i == start + |PiecesLines(pieces)| && error == None
      invariant hunkSeen == (pieces != []) && changed == PiecesChanged(pieces)
      invariant ParsePieces(lines[start..]) == PiecesInFront(pieces, ParsePieces(lines[i..]))
    {
      ghost var rest := lines[i..];
      assert rest[1] == lines[i + 1] && rest[2..] == lines[i + 2..];
      i := i + 1;
      if !HunkHeader(lines[i]) {
        BadHunk(rest);
        return i, hunkSeen, changed, Some(Malformed);
      }
      hunkSeen := true;
      i := i + 1;
      var more;
      i, more, error := ReadBody(lines, i);
      if error.Some? {
        BadBody(rest);
        return;
      }
      ghost var p := Piece(rest[0], rest[1], ParseBody(rest[2..]).value);
      PiecesStep(pieces, rest);
      PiecesAppend(pieces, p);
      assert rest[2 + |p.body|..] == lines[i..];
      pieces := pieces + [p];
      changed := changed + more;
    }
    NoPieces(lines[i..]);
    assert pieces + [] == pieces;
  }

  lemma EmptyPieces()
    ensures PiecesLines([]) == [] && PiecesChanged([]) == 0
  {
  }

  lemma BadHunk(rest: seq<string>)
    requires |rest| >= 2 && StartsHunk(rest[1]) && !HunkHeader(rest[1])
    ensures ParsePieces(rest) == Failure(Malformed)
  {
  }

  lemma BadBody(rest: seq<string>)
    requires |rest| >= 2 && StartsHunk(rest[1]) && HunkHeader(rest[1]) && ParseBody(rest[2..]).Failure?
    ensures ParsePieces(rest) == Failure(ParseBody(rest[2..]).error)
  {
  }

  lemma SectionsStep(c: Contract, sections: seq<Section>, rest: seq<string>)
    requires rest != [] && ParseHeader(c, rest).Success?
    requires var after := rest[|HeaderLines(ParseHeader(c, rest).value.0)|..];
      ParsePieces(after).Success? && ParsePieces(after).value != []
    ensures var (header, target) := ParseHeader(c, rest).value;
      var after := rest[|HeaderLines(header)|..];
      var pieces := ParsePieces(after).value;
      InFront(sections, ParseSections(c, rest))
      == InFront(sections + [Section(header, target, pieces)], ParseSections(c, after[|PiecesLines(pieces)|..]))
  {
    hide ParseHeader, ParsePieces, HeaderLines, PiecesLines;
    var (header, target) := ParseHeader(c, rest).value;
    var after := rest[|HeaderLines(header)|..];
    var pieces := ParsePieces(after).value;
    var s, tail := Section(header, target, pieces), ParseSections(c, after[|PiecesLines(pieces)|..]);
    if tail.Success? {
      assert sections + ([s] + tail.value) == (sections + [s]) + tail.value;
    }
  }

  lemma {:induction false} SectionsAppend(sections: seq<Section>, s: Section)
    ensures Targets(sections + [s]) == Targets(sections) + [s.target]
    ensures Changed(sections + [s]) == Changed(sections) + PiecesChanged(s.pieces)
  {
    hide PiecesChanged;
    if sections == [] {
      assert sections + [s] == [s] && [s][1..] == [];
    } else {
      SectionsAppend(sections[1..], s);
      assert (sections + [s])[1..] == sections[1..] + [s];
    }
  }

  /** `parse_patch`: the cursor, the files and the count of changed lines advance section by
      section; every call ends, with exactly the specified result or reason. */
  method ParsePatch(c: Contract, text: string) returns (r: Result<seq<string>, Reason>)
    ensures r == Parsed(c, text)
  {
    hide Binary, Lines, ParseHeader, ParsePieces, HeaderLines, PiecesLines, PiecesChanged, Concluded, ParseSections;
    if text == [] {
      return Failure(Malformed);
    }
    if Binary(text) {
      return Failure(BinaryForbidden);
    }
    var lines := Lines(text);
    var i, files, changedLines := 0, [], 0;
    ghost var sections: seq<Section> := [];
    assert lines[0..] == lines;
    NoneInFront(ParseSections(c, lines));
    while i < |lines|
      invariant 0 <= i <= |lines|
      invariant files == Targets(sections) && changedLines == Changed(sections)
      invariant ParseSections(c, lines) == InFront(sections, ParseSections(c, lines[i..]))
    {
      ghost var rest := lines[i..];
      var header := ParseHeader(c, lines[i..]);
      if header.Failure? {
        BadSection(c, rest);
        return Failure(header.error);
      }
      i := i + |HeaderLines(header.value.0)|;
      ghost var after := lines[i..];
      assert rest[|HeaderLines(header.value.0)|..] == after;
      var hunkSeen, changed, error;
      i, hunkSeen, changed, error := ReadPieces(lines, i);
      if error.Some? || !hunkSeen {
        BadSection(c, rest);
        return Failure(if error.Some? then error.value else Malformed);
      }
      ghost var pieces := ParsePieces(after).value;
      SectionsStep(c, sections, rest);
      assert after[|PiecesLines(pieces)|..] == lines[i..];
      SectionsAppend(sections, Section(header.value.0, header.value.1, pieces));
      sections := sections + [Section(header.value.0, header.value.1, pieces)];
      files := files + [header.value.1];
      changedLines := changedLines + changed;
    }
    NoSections(c, lines[i..]);
    assert sections + [] == sections;
    r := Concluded(c, files, changedLines);
  }

  lemma NoSections(c: Contract, rest: seq<string>)
    requires rest == []
    ensures ParseSections(c, rest) == Success([])
  {
  }

  lemma BadSection(c: Contract, rest: seq<string>)
    requires rest != []
    ensures ParseHeader(c, rest).Failure? ==> ParseSections(c, rest) == Failure(ParseHeader(c, rest).error)
    ensures ParseHeader(c, rest).Success? ==>
      var pieces := ParsePieces(rest[|HeaderLines(ParseHeader(c, rest).value.0)|..]);
      && (pieces.Failure? ==> ParseSections(c, rest) == Failure(pieces.error))
      && (pieces == Success([]) ==> ParseSections(c, rest) == Failure(Malformed))
  {
    hide ParseHeader, ParsePieces, HeaderLines, PiecesLines;
  }
}
