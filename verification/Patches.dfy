/**
 The unified-diff accounting of triage/models.py: exactly the patches that a printer of
 metadata and balanced hunks can produce are accepted, with their added and removed lines
 (unified format of POSIX.1-2017 `diff`, section "Diff -u or -U Output Format").
 */
module Patches {
  import opened Models
  import opened GroupIds

  // ---- hunk headers ----

  /** A hunk header; a missing count means one line. */
  datatype Header = Header(oldStart: string, oldCount: Option<string>, newStart: string, newCount: Option<string>,
                           tail: string)

  predicate Digits(s: string) { s != "" && AllDigits(s) }

  predicate OptionalDigits(s: Option<string>) { s.Some? ==> Digits(s.value) }

  predicate WellFormedHeader(h: Header) {
    Digits(h.oldStart) && OptionalDigits(h.oldCount) && Digits(h.newStart) && OptionalDigits(h.newCount)
  }

  function PrintRange(start: string, count: Option<string>): string {
    start + (if count.Some? then "," + count.value else "")
  }

  function PrintHeader(h: Header): string {
    "@@ -" + PrintRange(h.oldStart, h.oldCount) + " +" + PrintRange(h.newStart, h.newCount) + " @@" + h.tail
  }

  function Lines(count: Option<string>): nat
    requires OptionalDigits(count)
  {
    if count.Some? then ParseNat(count.value) else 1
  }

  /** How many characters at the front of s are digits. */
  function DigitRun(s: string): (n: nat)
    ensures n <= |s| && AllDigits(s[..n]) && (n < |s| ==> !IsDigit(s[n]))
  {
    if s != "" && IsDigit(s[0]) then 1 + DigitRun(s[1..]) else 0
  }

  datatype Range = Range(start: string, count: Option<string>, rest: string)

  /** `\d+(?:,(\d+))?` at the front of s. */
  function ParseRange(s: string): Option<Range> {
    var n := DigitRun(s);
    if n == 0 then None
    else if n < |s| && s[n] == ',' && DigitRun(s[n + 1..]) > 0 then
      var after := s[n + 1..];
      Some(Range(s[..n], Some(after[..DigitRun(after)]), after[DigitRun(after)..]))
    else Some(Range(s[..n], None, s[n..]))
  }

  function AfterPrefix(s: string, prefix: string): Option<string> {
    if prefix <= s then Some(s[|prefix|..]) else None
  }

  /** `_HUNK_HEADER.fullmatch`. */
  function ParseHeader(line: string): Option<Header> {
    match AfterPrefix(line, "@@ -")
    case None => None
    case Some(s) =>
      match ParseRange(s)
      case None => None
      case Some(before) =>
        match AfterPrefix(before.rest, " +")
        case None => None
        case Some(t) =>
          match ParseRange(t)
          case None => None
          case Some(after) =>
            match AfterPrefix(after.rest, " @@")
            case None => None
            case Some(tail) => Some(Header(before.start, before.count, after.start, after.count, tail))
  }

  lemma {:induction false} DigitRunIs(digits: string, rest: string)
    requires AllDigits(digits) && (rest != "" ==> !IsDigit(rest[0]))
    ensures DigitRun(digits + rest) == |digits|
  {
    if digits == "" {
      assert digits + rest == rest;
    } else {
      assert (digits + rest)[1..] == digits[1..] + rest;
      DigitRunIs(digits[1..], rest);
    }
  }

  lemma PlainRangeReadBack(start: string, rest: string)
    requires Digits(start) && rest != "" && !IsDigit(rest[0]) && rest[0] != ','
    ensures ParseRange(start + rest) == Some(Range(start, None, rest))
  {
    hide DigitRun;
    DigitRunIs(start, rest);
    var s := start + rest;
    assert s[|start|] == rest[0] && s[|start|..] == rest && s[..|start|] == start;
  }

  lemma CountedRangeReadBack(start: string, count: string, rest: string)
    requires Digits(start) && Digits(count) && rest != "" && !IsDigit(rest[0])
    ensures ParseRange(start + ("," + (count + rest))) == Some(Range(start, Some(count), rest))
  {
    hide DigitRun;
    var after := count + rest;
    DigitRunIs(start, "," + after);
    DigitRunIs(count, rest);
    var s := start + ("," + after);
    assert s[|start|] == ',' && s[|start| + 1..] == after && s[..|start|] == start;
    assert after[|count|..] == rest && after[..|count|] == count;
  }

  /** A printed range before anything but a digit or comma is read back. */
  lemma RangeReadBack(start: string, count: Option<string>, rest: string)
    requires Digits(start) && OptionalDigits(count) && rest != "" && !IsDigit(rest[0]) && rest[0] != ','
    ensures ParseRange(PrintRange(start, count) + rest) == Some(Range(start, count, rest))
  {
    hide DigitRun, Digits, ParseRange;
    if count.None? {
      PlainRangeReadBack(start, rest);
      assert PrintRange(start, count) + rest == start + rest;
    } else {
      CountedRangeReadBack(start, count.value, rest);
      assert PrintRange(start, count) + rest == start + ("," + (count.value + rest));
    }
  }

  lemma DigitRunSplits(s: string)
    ensures s == s[..DigitRun(s)] + s[DigitRun(s)..]
    ensures DigitRun(s) > 0 ==> Digits(s[..DigitRun(s)])
  {
    hide DigitRun;
  }

  lemma RangeIsPrinted(s: string)
    requires ParseRange(s).Some?
    ensures var r := ParseRange(s).value;
            Digits(r.start) && OptionalDigits(r.count) && s == PrintRange(r.start, r.count) + r.rest
  {
    hide DigitRun, Digits;
    DigitRunSplits(s);
    var n := DigitRun(s);
    if n < |s| && s[n] == ',' && DigitRun(s[n + 1..]) > 0 {
      var after := s[n + 1..];
      DigitRunSplits(after);
      assert s[n..] == "," + after;
    }
  }

  lemma AfterPrefixIs(prefix: string, s: string)
    ensures AfterPrefix(prefix + s, prefix) == Some(s)
  {}

  /** The header pattern matches exactly the printed headers, each in one way. */
  lemma HeaderReadBack(h: Header)
    requires WellFormedHeader(h)
    ensures ParseHeader(PrintHeader(h)) == Some(h)
  {
    hide ParseRange, PrintRange, AfterPrefix, Digits, OptionalDigits;
    var end := " @@" + h.tail;
    var new' := PrintRange(h.newStart, h.newCount);
    var middle := " +" + (new' + end);
    var old' := PrintRange(h.oldStart, h.oldCount);
    assert PrintHeader(h) == "@@ -" + (old' + middle);
    AfterPrefixIs("@@ -", old' + middle);
    RangeReadBack(h.oldStart, h.oldCount, middle);
    AfterPrefixIs(" +", new' + end);
    RangeReadBack(h.newStart, h.newCount, end);
    AfterPrefixIs(" @@", h.tail);
  }

  lemma AfterPrefixSplits(s: string, prefix: string)
    requires AfterPrefix(s, prefix).Some?
    ensures s == prefix + AfterPrefix(s, prefix).value
  {}

  lemma HeaderIsPrinted(line: string)
    requires ParseHeader(line).Some?
    ensures WellFormedHeader(ParseHeader(line).value) && PrintHeader(ParseHeader(line).value) == line
  {
    hide ParseRange, PrintRange, AfterPrefix, Digits, OptionalDigits;
    AfterPrefixSplits(line, "@@ -");
    var s := AfterPrefix(line, "@@ -").value;
    RangeIsPrinted(s);
    var before := ParseRange(s).value;
    AfterPrefixSplits(before.rest, " +");
    var t := AfterPrefix(before.rest, " +").value;
    RangeIsPrinted(t);
    var after := ParseRange(t).value;
    AfterPrefixSplits(after.rest, " @@");
    var tail := AfterPrefix(after.rest, " @@").value;
    var old', new' := PrintRange(before.start, before.count), PrintRange(after.start, after.count);
    assert line == "@@ -" + (old' + (" +" + (new' + (" @@" + tail))));
  }

  // ---- patches ----

  datatype BodyLine = Added(text: string) | Removed(text: string) | Context(text: string) | NoNewline

  datatype Hunk = Hunk(header: Header, body: seq<BodyLine>)

  datatype Patch = Patch(meta: seq<string>, hunks: seq<Hunk>)

  const NO_NEWLINE := "\\ No newline at end of file"

  function PrintBodyLine(b: BodyLine): string {
    match b case Added(t) => "+" + t case Removed(t) => "-" + t case Context(t) => " " + t case NoNewline => NO_NEWLINE
  }

  /** A line inside a hunk, if it is one. */
  function ParseBodyLine(line: string): Option<BodyLine> {
    if line == NO_NEWLINE then Some(NoNewline)
    else if line == "" then None
    else if line[0] == '+' then Some(Added(line[1..]))
    else if line[0] == '-' then Some(Removed(line[1..]))
    else if line[0] == ' ' then Some(Context(line[1..]))
    else None
  }

  lemma BodyLineReadBack(line: string, b: BodyLine)
    ensures ParseBodyLine(line) == Some(b) <==> PrintBodyLine(b) == line
  {
    match b
    case Added(t) => assert ("+" + t)[1..] == t;
    case Removed(t) => assert ("-" + t)[1..] == t;
    case Context(t) => assert (" " + t)[1..] == t;
    case NoNewline =>
  }

  predicate IsMetadata(line: string) {
    || "diff " <= line || "index " <= line || "--- " <= line || "+++ " <= line
    || "new file " <= line || "deleted file " <= line || "similarity " <= line || "rename " <= line
  }

  /** The line begins with this word and a blank. */
  predicate BeginsWith(line: string, kind: string) {
    |line| > |kind| && line[..|kind|] == kind && line[|kind|] == ' '
  }

  lemma BeginsIff(line: string, kind: string, prefix: string)
    requires prefix == kind + " "
    ensures prefix <= line <==> BeginsWith(line, kind)
  {
    if prefix <= line {
      assert prefix[|kind|] == ' ' && prefix[..|kind|] == kind;
      assert line[..|prefix|] == prefix;
      assert line[..|kind|] == line[..|prefix|][..|kind|];
    }
    if BeginsWith(line, kind) { assert line[..|prefix|] == line[..|kind|] + [line[|kind|]]; }
  }

  const METADATA_KINDS: set<string> :=
    {"diff", "index", "---", "+++", "new file", "deleted file", "similarity", "rename"}

  /** Before the first hunk a line is one of the eight kinds of file metadata. */
  lemma MetadataIff(line: string)
    ensures IsMetadata(line) <==>
            exists kind | kind in METADATA_KINDS :: BeginsWith(line, kind)
  {
    hide BeginsWith;
    BeginsIff(line, "diff", "diff ");
    BeginsIff(line, "index", "index ");
    BeginsIff(line, "---", "--- ");
    BeginsIff(line, "+++", "+++ ");
    BeginsIff(line, "new file", "new file ");
    BeginsIff(line, "deleted file", "deleted file ");
    BeginsIff(line, "similarity", "similarity ");
    BeginsIff(line, "rename", "rename ");
  }

  /** The three kinds of line are told apart by how they begin. */
  lemma KindsAreDisjoint(line: string)
    ensures ParseHeader(line).Some? ==> !IsMetadata(line) && ParseBodyLine(line).None?
  {
    hide ParseRange;
    if ParseHeader(line).Some? {
      assert "@@ -" <= line;
      assert line[0] == '@';
    }
  }

  function PrintBody(body: seq<BodyLine>): (r: seq<string>)
    ensures |r| == |body|
  {
    if body == [] then [] else PrintBody(body[..|body| - 1]) + [PrintBodyLine(body[|body| - 1])]
  }

  function PrintHunks(hunks: seq<Hunk>): seq<string> {
    if hunks == [] then [] else
      var h := hunks[|hunks| - 1];
      PrintHunks(hunks[..|hunks| - 1]) + ([PrintHeader(h.header)] + PrintBody(h.body))
  }

  /** The lines of a patch. */
  function PrintPatch(p: Patch): seq<string> { p.meta + PrintHunks(p.hunks) }

  ghost predicate Shaped(p: Patch) {
    && (forall line | line in p.meta :: IsMetadata(line))
    && (forall h | h in p.hunks :: WellFormedHeader(h.header))
  }

  /** Reading one more line: a header opens a hunk, metadata only comes before the first. */
  function Extend(p: Patch, line: string): Option<Patch> {
    if ParseHeader(line).Some? then Some(p.(hunks := p.hunks + [Hunk(ParseHeader(line).value, [])]))
    else if p.hunks == [] then (if IsMetadata(line) then Some(p.(meta := p.meta + [line])) else None)
    else if ParseBodyLine(line).None? then None
    else
      var n := |p.hunks| - 1;
      Some(p.(hunks := p.hunks[n := p.hunks[n].(body := p.hunks[n].body + [ParseBodyLine(line).value])]))
  }

  function ParseLines(lines: seq<string>): Option<Patch> {
    if lines == [] then Some(Patch([], [])) else
      match ParseLines(lines[..|lines| - 1])
      case None => None
      case Some(p) => Extend(p, lines[|lines| - 1])
  }

  lemma NewHunkPrints(hunks: seq<Hunk>, h: Header)
    ensures PrintHunks(hunks + [Hunk(h, [])]) == PrintHunks(hunks) + [PrintHeader(h)]
  {
    hide PrintHeader;
    var more := hunks + [Hunk(h, [])];
    assert more[..|hunks|] == hunks;
    assert [PrintHeader(h)] + PrintBody([]) == [PrintHeader(h)];
  }

  lemma LongerHunkPrints(hunks: seq<Hunk>, b: BodyLine)
    requires hunks != []
    ensures var n := |hunks| - 1;
            PrintHunks(hunks[n := hunks[n].(body := hunks[n].body + [b])]) == PrintHunks(hunks) + [PrintBodyLine(b)]
  {
    hide PrintHeader, PrintBodyLine;
    var n := |hunks| - 1;
    var longer := hunks[n].body + [b];
    var more := hunks[n := hunks[n].(body := longer)];
    assert more[..n] == hunks[..n] && longer[..|hunks[n].body|] == hunks[n].body;
    var head, start := PrintHunks(hunks[..n]), [PrintHeader(hunks[n].header)];
    assert head + (start + (PrintBody(hunks[n].body) + [PrintBodyLine(b)])) ==
           head + (start + PrintBody(hunks[n].body)) + [PrintBodyLine(b)];
  }

  lemma ExtendPrints(p: Patch, line: string)
    requires Shaped(p) && Extend(p, line).Some?
    ensures Shaped(Extend(p, line).value) && PrintPatch(Extend(p, line).value) == PrintPatch(p) + [line]
  {
    hide ParseHeader, PrintHeader, WellFormedHeader, IsMetadata, ParseBodyLine, PrintBodyLine, PrintHunks;
    var q := Extend(p, line).value;
    if ParseHeader(line).Some? {
      HeaderIsPrinted(line);
      NewHunkPrints(p.hunks, ParseHeader(line).value);
    } else if p.hunks == [] {
      NoHunksPrint(p);
      NoHunksPrint(q);
    } else {
      var b := ParseBodyLine(line).value;
      BodyLineReadBack(line, b);
      LongerHunkPrints(p.hunks, b);
      var n := |p.hunks| - 1;
      assert p.hunks[n] in p.hunks;
    }
  }

  lemma {:induction false} ParsedIsPrinted(lines: seq<string>)
    requires ParseLines(lines).Some?
    ensures Shaped(ParseLines(lines).value) && PrintPatch(ParseLines(lines).value) == lines
  {
    hide Extend, Shaped, PrintPatch;
    if lines == [] {
      EmptyPatch();
    } else {
      var n := |lines| - 1;
      ParsedIsPrinted(lines[..n]);
      ExtendPrints(ParseLines(lines[..n]).value, lines[n]);
      assert lines == lines[..n] + [lines[n]];
    }
  }

  lemma EmptyPatch()
    ensures Shaped(Patch([], [])) && PrintPatch(Patch([], [])) == []
  {}

  /** The patch without its last line, and that line. */
  function WithoutLast(p: Patch): (Patch, string)
    requires p.hunks != [] || p.meta != []
  {
    if p.hunks == [] then (p.(meta := p.meta[..|p.meta| - 1]), p.meta[|p.meta| - 1])
    else
      var n := |p.hunks| - 1;
      var h := p.hunks[n];
      if h.body == [] then (p.(hunks := p.hunks[..n]), PrintHeader(h.header))
      else (p.(hunks := p.hunks[n := h.(body := h.body[..|h.body| - 1])]), PrintBodyLine(h.body[|h.body| - 1]))
  }

  lemma WithoutLastExtends(p: Patch)
    requires Shaped(p) && (p.hunks != [] || p.meta != [])
    ensures var (q, line) := WithoutLast(p); Shaped(q) && Extend(q, line) == Some(p)
  {
    hide ParseHeader, PrintHeader, WellFormedHeader, IsMetadata, ParseBodyLine, PrintBodyLine;
    var (q, line) := WithoutLast(p);
    KindsAreDisjoint(line);
    if p.hunks == [] {
      assert p.meta == q.meta + [line] && line in p.meta;
    } else {
      var n := |p.hunks| - 1;
      var h := p.hunks[n];
      assert p.hunks == p.hunks[..n] + [h];
      assert h in p.hunks;
      if h.body == [] {
        HeaderReadBack(h.header);
        assert p.hunks[n] == Hunk(h.header, []);
      } else {
        var b := h.body[|h.body| - 1];
        BodyLineReadBack(line, b);
        assert h.body == h.body[..|h.body| - 1] + [b];
        assert p.hunks == q.hunks[n := h];
      }
    }
  }

  /** The parser inverts the printer: every shaped patch is read back from its lines. */
  lemma {:induction false} PrintedIsParsed(p: Patch)
    requires Shaped(p)
    ensures ParseLines(PrintPatch(p)) == Some(p)
    decreases |PrintPatch(p)|
  {
    hide Extend, Shaped, WithoutLast, PrintPatch;
    if p.hunks == [] && p.meta == [] {
      EmptyPatch();
    } else {
      var (q, line) := WithoutLast(p);
      WithoutLastExtends(p);
      ExtendPrints(q, line);
      assert PrintPatch(p)[..|PrintPatch(p)| - 1] == PrintPatch(q);
      PrintedIsParsed(q);
    }
  }

  // ---- accounting ----

  function OldLines(body: seq<BodyLine>): nat {
    if body == [] then 0 else
      OldLines(body[..|body| - 1]) + (if body[|body| - 1].Removed? || body[|body| - 1].Context? then 1 else 0)
  }

  function NewLines(body: seq<BodyLine>): nat {
    if body == [] then 0 else
      NewLines(body[..|body| - 1]) + (if body[|body| - 1].Added? || body[|body| - 1].Context? then 1 else 0)
  }

  function AddedLines(body: seq<BodyLine>): nat {
    if body == [] then 0 else AddedLines(body[..|body| - 1]) + (if body[|body| - 1].Added? then 1 else 0)
  }

  function RemovedLines(body: seq<BodyLine>): nat {
    if body == [] then 0 else RemovedLines(body[..|body| - 1]) + (if body[|body| - 1].Removed? then 1 else 0)
  }

  /** Every declared old and new line is there, and no more. */
  ghost predicate Balanced(h: Hunk) {
    WellFormedHeader(h.header) && OldLines(h.body) == Lines(h.header.oldCount)
      && NewLines(h.body) == Lines(h.header.newCount)
  }

  /** A whole patch: metadata, then at least one hunk, all balanced. */
  ghost predicate WholePatch(p: Patch) {
    Shaped(p) && p.hunks != [] && forall i | 0 <= i < |p.hunks| :: Balanced(p.hunks[i])
  }

  function TotalAdded(hunks: seq<Hunk>): nat {
    if hunks == [] then 0 else TotalAdded(hunks[..|hunks| - 1]) + AddedLines(hunks[|hunks| - 1].body)
  }

  function TotalRemoved(hunks: seq<Hunk>): nat {
    if hunks == [] then 0 else TotalRemoved(hunks[..|hunks| - 1]) + RemovedLines(hunks[|hunks| - 1].body)
  }

  function DeclaredOld(hunks: seq<Hunk>): nat
    requires forall i | 0 <= i < |hunks| :: WellFormedHeader(hunks[i].header)
  {
    if hunks == [] then 0 else
      assert WellFormedHeader(hunks[|hunks| - 1].header);
      DeclaredOld(hunks[..|hunks| - 1]) + Lines(hunks[|hunks| - 1].header.oldCount)
  }

  function DeclaredNew(hunks: seq<Hunk>): nat
    requires forall i | 0 <= i < |hunks| :: WellFormedHeader(hunks[i].header)
  {
    if hunks == [] then 0 else
      assert WellFormedHeader(hunks[|hunks| - 1].header);
      DeclaredNew(hunks[..|hunks| - 1]) + Lines(hunks[|hunks| - 1].header.newCount)
  }

  lemma {:induction false} BodyDifference(body: seq<BodyLine>)
    ensures AddedLines(body) - RemovedLines(body) == NewLines(body) - OldLines(body)
  {
    if body != [] { BodyDifference(body[..|body| - 1]); }
  }

  /** Additions minus deletions is the declared growth of the file. */
  lemma {:induction false} CountsMatchDeclaration(hunks: seq<Hunk>)
    requires forall i | 0 <= i < |hunks| :: WellFormedHeader(hunks[i].header) && Balanced(hunks[i])
    ensures TotalAdded(hunks) - TotalRemoved(hunks) == DeclaredNew(hunks) - DeclaredOld(hunks)
  {
    if hunks != [] {
      var n := |hunks| - 1;
      CountsMatchDeclaration(hunks[..n]);
      BodyDifference(hunks[n].body);
    }
  }

  // ---- the loop ----

  ghost predicate NotOverdrawn(h: Hunk) {
    WellFormedHeader(h.header) && OldLines(h.body) <= Lines(h.header.oldCount)
      && NewLines(h.body) <= Lines(h.header.newCount)
  }

  /** A read prefix that can still become a whole patch. */
  ghost predicate Alive(p: Patch) {
    && (forall i | 0 <= i < |p.hunks| - 1 :: Balanced(p.hunks[i]))
    && (p.hunks != [] ==> NotOverdrawn(p.hunks[|p.hunks| - 1]))
  }

  ghost predicate AliveAfter(lines: seq<string>) {
    ParseLines(lines).Some? && Alive(ParseLines(lines).value)
  }

  lemma ExtendAlive(p: Patch, line: string)
    requires Extend(p, line).Some? && Alive(Extend(p, line).value)
    ensures Alive(p)
  {
    hide ParseHeader, ParseBodyLine, IsMetadata;
    var q := Extend(p, line).value;
    var n := |p.hunks| - 1;
    if ParseHeader(line).Some? {
      if n >= 0 { assert q.hunks[n] == p.hunks[n] && Balanced(q.hunks[n]); }
      forall i | 0 <= i < n ensures Balanced(p.hunks[i]) { assert q.hunks[i] == p.hunks[i]; }
    } else if n >= 0 {
      assert q.hunks[n].body[..|p.hunks[n].body|] == p.hunks[n].body;
      forall i | 0 <= i < n ensures Balanced(p.hunks[i]) { assert q.hunks[i] == p.hunks[i]; }
    }
  }

  /** A prefix that cannot become a whole patch dooms the rest. */
  lemma {:induction false} AliveBefore(lines: seq<string>, n: nat)
    requires n <= |lines| && AliveAfter(lines)
    ensures AliveAfter(lines[..n])
    decreases |lines| - n
  {
    hide Extend, Alive;
    if n == |lines| {
      assert lines[..n] == lines;
    } else {
      AliveBefore(lines, n + 1);
      assert lines[..n + 1][..n] == lines[..n];
      ExtendAlive(ParseLines(lines[..n]).value, lines[n]);
    }
  }

  lemma WholeIsAlive(p: Patch)
    requires WholePatch(p)
    ensures Alive(p)
  {
  }

  lemma EmptyIsAlive()
    ensures AliveAfter([]) && ParseLines([]) == Some(Patch([], [])) && Accounts(Patch([], []), 0, 0, 0, 0, false)
  {}

  lemma DoomedIsNotWhole(lines: seq<string>, n: nat)
    requires n <= |lines| && !AliveAfter(lines[..n])
    ensures !(ParseLines(lines).Some? && WholePatch(ParseLines(lines).value))
  {
    hide Alive, WholePatch, ParseLines;
    if ParseLines(lines).Some? && WholePatch(ParseLines(lines).value) {
      WholeIsAlive(ParseLines(lines).value);
      AliveBefore(lines, n);
    }
  }

  /** What the loop variables hold after a prefix that is read as p. */
  ghost predicate Accounts(p: Patch, additions: int, deletions: int, oldRemaining: int, newRemaining: int,
                           sawHunk: bool) {
    && additions == TotalAdded(p.hunks) && deletions == TotalRemoved(p.hunks) && (sawHunk <==> p.hunks != [])
    && (p.hunks != [] ==>
          var h := p.hunks[|p.hunks| - 1];
          && WellFormedHeader(h.header)
          && oldRemaining == Lines(h.header.oldCount) - OldLines(h.body)
          && newRemaining == Lines(h.header.newCount) - NewLines(h.body))
  }

  lemma HunkAppended(hunks: seq<Hunk>, h: Header)
    ensures TotalAdded(hunks + [Hunk(h, [])]) == TotalAdded(hunks)
    ensures TotalRemoved(hunks + [Hunk(h, [])]) == TotalRemoved(hunks)
    ensures OldLines([]) == 0 == NewLines([])
  {
    assert (hunks + [Hunk(h, [])])[..|hunks|] == hunks;
  }

  lemma HeaderStep(p: Patch, line: string, additions: int, deletions: int, oldRemaining: int, newRemaining: int,
                   sawHunk: bool)
    requires Alive(p) && Accounts(p, additions, deletions, oldRemaining, newRemaining, sawHunk)
             && ParseHeader(line).Some?
    ensures Extend(p, line).Some?
    ensures var h := ParseHeader(line).value;
            && WellFormedHeader(h)
            && Accounts(Extend(p, line).value, additions, deletions, Lines(h.oldCount), Lines(h.newCount), true)
    ensures Alive(Extend(p, line).value) <==> (!sawHunk || (oldRemaining == 0 && newRemaining == 0))
  {
    hide ParseHeader, Lines, WellFormedHeader, TotalAdded, TotalRemoved, OldLines, NewLines;
    HeaderIsPrinted(line);
    var q, n := Extend(p, line).value, |p.hunks| - 1;
    HunkAppended(p.hunks, ParseHeader(line).value);
    LinesOfHeader(ParseHeader(line).value);
    if n >= 0 { assert q.hunks[n] == p.hunks[n]; }
    if !sawHunk || (oldRemaining == 0 && newRemaining == 0) {
      forall i | 0 <= i < n + 1 ensures Balanced(q.hunks[i]) { assert q.hunks[i] == p.hunks[i]; }
    }
  }

  lemma LinesOfHeader(h: Header)
    requires WellFormedHeader(h)
    ensures OptionalDigits(h.oldCount) && OptionalDigits(h.newCount)
  {}

  lemma BodyAppend(body: seq<BodyLine>, b: BodyLine)
    ensures OldLines(body + [b]) == OldLines(body) + (if b.Removed? || b.Context? then 1 else 0)
    ensures NewLines(body + [b]) == NewLines(body) + (if b.Added? || b.Context? then 1 else 0)
    ensures AddedLines(body + [b]) == AddedLines(body) + (if b.Added? then 1 else 0)
    ensures RemovedLines(body + [b]) == RemovedLines(body) + (if b.Removed? then 1 else 0)
  {
    assert (body + [b])[..|body|] == body;
  }

  lemma LastReplaced(hunks: seq<Hunk>, h: Hunk)
    requires hunks != []
    ensures var n := |hunks| - 1;
            && TotalAdded(hunks[n := h]) == TotalAdded(hunks) - AddedLines(hunks[n].body) + AddedLines(h.body)
            && TotalRemoved(hunks[n := h]) == TotalRemoved(hunks) - RemovedLines(hunks[n].body) + RemovedLines(h.body)
  {
    var n := |hunks| - 1;
    assert hunks[n := h][..n] == hunks[..n];
  }

  lemma BodyStep(p: Patch, line: string, additions: int, deletions: int, oldRemaining: int, newRemaining: int,
                 sawHunk: bool)
    requires Alive(p) && Accounts(p, additions, deletions, oldRemaining, newRemaining, sawHunk) && sawHunk
    requires ParseHeader(line).None? && ParseBodyLine(line).Some?
    ensures Extend(p, line).Some?
    ensures var b := ParseBodyLine(line).value;
            var old' := oldRemaining - (if b.Removed? || b.Context? then 1 else 0);
            var new' := newRemaining - (if b.Added? || b.Context? then 1 else 0);
            && Accounts(Extend(p, line).value, additions + (if b.Added? then 1 else 0),
                        deletions + (if b.Removed? then 1 else 0),
                        old', new', true)
            && (Alive(Extend(p, line).value) <==> old' >= 0 && new' >= 0)
            && (b.NoNewline? ==> Alive(Extend(p, line).value))
  {
    hide ParseHeader, ParseBodyLine, TotalAdded, TotalRemoved, OldLines, NewLines, AddedLines, RemovedLines,
         WellFormedHeader;
    var q, n := Extend(p, line).value, |p.hunks| - 1;
    BodyAppend(p.hunks[n].body, ParseBodyLine(line).value);
    LastReplaced(p.hunks, q.hunks[n]);
    LinesOfHeader(p.hunks[n].header);
    assert q.hunks == p.hunks[n := q.hunks[n]];
    forall i | 0 <= i < n ensures q.hunks[i] == p.hunks[i] && Balanced(q.hunks[i]) {}
  }

  lemma FinishedIsWhole(p: Patch, additions: int, deletions: int, oldRemaining: int, newRemaining: int, sawHunk: bool)
    requires Shaped(p) && Alive(p) && Accounts(p, additions, deletions, oldRemaining, newRemaining, sawHunk)
    ensures WholePatch(p) <==> sawHunk && oldRemaining == 0 && newRemaining == 0
    ensures additions == TotalAdded(p.hunks) && deletions == TotalRemoved(p.hunks)
  {
    hide Shaped;
    if p.hunks != [] {
      var n := |p.hunks| - 1;
      assert Balanced(p.hunks[n]) <==> oldRemaining == 0 && newRemaining == 0;
    }
  }

  /** `unified_patch_line_counts`, on the lines of the patch. */
  method LineCounts(lines: seq<string>) returns (counts: Option<(nat, nat)>)
    ensures counts.Some? <==> ParseLines(lines).Some? && WholePatch(ParseLines(lines).value)
    ensures counts.Some? ==>
              counts.value == (TotalAdded(ParseLines(lines).value.hunks), TotalRemoved(ParseLines(lines).value.hunks))
  {
    hide ParseHeader, Extend, Alive, WholePatch, Accounts, TotalAdded, TotalRemoved;
    var additions: nat, deletions: nat, oldRemaining: int, newRemaining: int, sawHunk := 0, 0, 0, 0, false;
    EmptyIsAlive();
    for i := 0 to |lines|
      invariant AliveAfter(lines[..i])
      invariant Accounts(ParseLines(lines[..i]).value, additions, deletions, oldRemaining, newRemaining, sawHunk)
    {
      var line := lines[i];
      ghost var p := ParseLines(lines[..i]).value;
      ParseNext(lines, i);
      var header := ParseHeader(line);
      if header.Some? {
        HeaderStep(p, line, additions, deletions, oldRemaining, newRemaining, sawHunk);
        if sawHunk && (oldRemaining != 0 || newRemaining != 0) {
          DoomedIsNotWhole(lines, i + 1);
          return None;
        }
        oldRemaining, newRemaining, sawHunk := Lines(header.value.oldCount), Lines(header.value.newCount), true;
        continue;
      }
      if !sawHunk {
        MetadataStep(p, line, additions, deletions, oldRemaining, newRemaining);
        if IsMetadata(line) {
          continue;
        }
        DoomedIsNotWhole(lines, i + 1);
        return None;
      }
      var b := ParseBodyLine(line);
      if b.None? {
        NoLineStep(p, line, additions, deletions, oldRemaining, newRemaining);
        DoomedIsNotWhole(lines, i + 1);
        return None;
      }
      BodyStep(p, line, additions, deletions, oldRemaining, newRemaining, sawHunk);
      match b.value {
        case NoNewline =>
          continue;
        case Added(_) =>
          additions, newRemaining := additions + 1, newRemaining - 1;
        case Removed(_) =>
          deletions, oldRemaining := deletions + 1, oldRemaining - 1;
        case Context(_) =>
          oldRemaining, newRemaining := oldRemaining - 1, newRemaining - 1;
      }
      if oldRemaining < 0 || newRemaining < 0 {
        DoomedIsNotWhole(lines, i + 1);
        return None;
      }
    }
    assert lines[..|lines|] == lines;
    ParsedIsPrinted(lines);
    FinishedIsWhole(ParseLines(lines).value, additions, deletions, oldRemaining, newRemaining, sawHunk);
    if !sawHunk || oldRemaining != 0 || newRemaining != 0 {
      return None;
    }
    counts := Some((additions, deletions));
  }

  lemma ParseNext(lines: seq<string>, i: nat)
    requires i < |lines| && ParseLines(lines[..i]).Some?
    ensures ParseLines(lines[..i + 1]) == Extend(ParseLines(lines[..i]).value, lines[i])
  {
    hide Extend;
    assert lines[..i + 1][..i] == lines[..i];
  }

  lemma MetadataStep(p: Patch, line: string, additions: int, deletions: int, oldRemaining: int, newRemaining: int)
    requires Alive(p) && Accounts(p, additions, deletions, oldRemaining, newRemaining, false) && ParseHeader(line).None?
    ensures if IsMetadata(line) then
              && Extend(p, line).Some? && Alive(Extend(p, line).value)
              && Accounts(Extend(p, line).value, additions, deletions, oldRemaining, newRemaining, false)
            else Extend(p, line).None?
  {
    hide ParseHeader, IsMetadata;
  }

  lemma NoLineStep(p: Patch, line: string, additions: int, deletions: int, oldRemaining: int, newRemaining: int)
    requires Accounts(p, additions, deletions, oldRemaining, newRemaining, true) && ParseHeader(line).None?
             && ParseBodyLine(line).None?
    ensures Extend(p, line).None?
  {}

  // ---- lines of a text ----

  /** The separators of Python's `splitlines`. */
  predicate IsSeparator(c: char) {
    c in {'\n', '\r', '\U{000B}', '\U{000C}', '\U{001C}', '\U{001D}', '\U{001E}', '\U{0085}', '\U{2028}', '\U{2029}'}
  }

  predicate PlainLine(s: string) { forall i | 0 <= i < |s| :: !IsSeparator(s[i]) }

  function LineLength(s: string): (n: nat)
    ensures n <= |s| && PlainLine(s[..n]) && (n < |s| ==> IsSeparator(s[n]))
  {
    if s == "" || IsSeparator(s[0]) then 0 else 1 + LineLength(s[1..])
  }

  /** `splitlines`: no empty line after a final separator, and a carriage return with a line feed separates once. */
  function SplitLines(s: string): seq<string> {
    if s == "" then [] else
      var n := LineLength(s);
      if n == |s| then [s]
      else if s[n] == '\r' && n + 1 < |s| && s[n + 1] == '\n' then [s[..n]] + SplitLines(s[n + 2..])
      else [s[..n]] + SplitLines(s[n + 1..])
  }

  /** The lines joined by line feeds, the last one with or without its own. */
  function Text(lines: seq<string>, terminated: bool): string {
    if lines == [] then ""
    else if |lines| == 1 then lines[0] + (if terminated then "\n" else "")
    else lines[0] + "\n" + Text(lines[1..], terminated)
  }

  lemma {:induction false} LineLengthIs(line: string, rest: string)
    requires PlainLine(line) && (rest != "" ==> IsSeparator(rest[0]))
    ensures LineLength(line + rest) == |line|
  {
    if line == "" {
      assert line + rest == rest;
    } else {
      assert (line + rest)[1..] == line[1..] + rest;
      LineLengthIs(line[1..], rest);
    }
  }

  lemma SplitFirst(line: string, rest: string)
    requires PlainLine(line)
    ensures SplitLines(line + "\n" + rest) == [line] + SplitLines(rest)
  {
    hide LineLength, PlainLine;
    var s := line + ("\n" + rest);
    assert line + "\n" + rest == s;
    LineLengthIs(line, "\n" + rest);
    assert s[|line|] == '\n' && s[..|line|] == line && s[|line| + 1..] == rest;
  }

  lemma SplitLast(line: string)
    requires PlainLine(line) && line != ""
    ensures SplitLines(line) == [line]
  {
    hide PlainLine;
    LineLengthIs(line, "");
    assert line + "" == line;
  }

  /** Lines survive being written out and split again. */
  lemma {:induction false} LinesReadBack(lines: seq<string>, terminated: bool)
    requires forall i | 0 <= i < |lines| :: PlainLine(lines[i])
    requires terminated || lines == [] || lines[|lines| - 1] != ""
    ensures SplitLines(Text(lines, terminated)) == lines
  {
    hide SplitLines, PlainLine;
    if lines == [] {
      EmptyText();
    } else if |lines| == 1 {
      EmptyText();
      if terminated {
        SplitFirst(lines[0], "");
        assert lines[0] + "\n" + "" == lines[0] + "\n";
      } else {
        SplitLast(lines[0]);
        assert lines[0] + "" == lines[0];
      }
    } else {
      SplitFirst(lines[0], Text(lines[1..], terminated));
      LinesReadBack(lines[1..], terminated);
    }
  }

  lemma EmptyText()
    ensures SplitLines("") == []
  {}

  /** The lines, each followed by its separator. */
  function Rejoined(lines: seq<string>, ends: seq<string>): string
    requires |lines| == |ends|
  {
    if lines == [] then "" else lines[0] + (ends[0] + Rejoined(lines[1..], ends[1..]))
  }

  /** One separator, a carriage return only where no line feed follows, or the end of a text after some last line. */
  ghost predicate Ends(line: string, end: string, rest: string) {
    || (end == "\r\n")
    || (|end| == 1 && IsSeparator(end[0]) && !(end == "\r" && "\n" <= rest))
    || (end == "" && line != "" && rest == "")
  }

  ghost predicate Separated(lines: seq<string>, ends: seq<string>) {
    |lines| == |ends| && forall i | 0 <= i < |lines| ::
      PlainLine(lines[i]) && Ends(lines[i], ends[i], Rejoined(lines[i + 1..], ends[i + 1..]))
  }

  lemma SeparatedStep(lines: seq<string>, ends: seq<string>)
    requires |lines| == |ends| > 0
    ensures Separated(lines, ends) <==>
            && PlainLine(lines[0]) && Ends(lines[0], ends[0], Rejoined(lines[1..], ends[1..]))
            && Separated(lines[1..], ends[1..])
  {
    hide PlainLine, Ends, Rejoined;
    if Separated(lines, ends) {
      forall i | 0 <= i < |lines| - 1
        ensures PlainLine(lines[1..][i])
                && Ends(lines[1..][i], ends[1..][i], Rejoined(lines[1..][i + 1..], ends[1..][i + 1..]))
      {
        assert lines[1..][i] == lines[i + 1] && ends[1..][i] == ends[i + 1];
        assert lines[1..][i + 1..] == lines[i + 2..] && ends[1..][i + 1..] == ends[i + 2..];
      }
    }
    if Separated(lines[1..], ends[1..]) {
      forall i | 0 < i < |lines|
        ensures PlainLine(lines[i])
                && Ends(lines[i], ends[i], Rejoined(lines[i + 1..], ends[i + 1..])) ==
                   Ends(lines[i], ends[i], Rejoined(lines[1..][i..], ends[1..][i..]))
      {
        assert lines[1..][i - 1] == lines[i] && ends[1..][i - 1] == ends[i];
        assert lines[1..][i..] == lines[i + 1..] && ends[1..][i..] == ends[i + 1..];
      }
    }
  }

  /** The front of a text up to and with its first separator. */
  lemma SplitEnd(line: string, end: string, rest: string)
    requires PlainLine(line) && Ends(line, end, rest)
    ensures SplitLines(line + (end + rest)) == [line] + SplitLines(rest)
  {
    hide PlainLine;
    var s := line + (end + rest);
    LineLengthIs(line, end + rest);
    assert s[..|line|] == line && s[|line|..] == end + rest;
    if end != "" {
      assert s[|line|] == end[0] && s[|line| + 1..] == end[1..] + rest;
      if end == "\r\n" {
        assert s[|line| + 1] == '\n' && s[|line| + 2..] == rest;
      } else {
        assert end[1..] + rest == rest;
        assert |line| + 1 < |s| ==> s[|line| + 1] == rest[0] && (rest[0] == '\n' ==> "\n" <= rest);
      }
    } else {
      assert s == line;
    }
  }

  /** Splitting gives the only plain lines that, each with one separator behind it, are the text. */
  lemma {:induction false} SplitIsUnique(lines: seq<string>, ends: seq<string>)
    requires Separated(lines, ends)
    ensures SplitLines(Rejoined(lines, ends)) == lines
  {
    hide SplitLines, PlainLine, Ends, Separated;
    if lines == [] {
      EmptyText();
      EndsMatch(lines, ends);
    } else {
      EndsMatch(lines, ends);
      SeparatedStep(lines, ends);
      SplitIsUnique(lines[1..], ends[1..]);
      SplitEnd(lines[0], ends[0], Rejoined(lines[1..], ends[1..]));
    }
  }

  lemma EndsMatch(lines: seq<string>, ends: seq<string>)
    requires Separated(lines, ends)
    ensures |lines| == |ends|
  {}

  lemma PutFirst(line: string, end: string, lines: seq<string>, ends: seq<string>)
    requires Separated(lines, ends) && |lines| == |ends|
    requires PlainLine(line) && Ends(line, end, Rejoined(lines, ends))
    ensures Separated([line] + lines, [end] + ends)
    ensures Rejoined([line] + lines, [end] + ends) == line + (end + Rejoined(lines, ends))
  {
    hide PlainLine, Ends, Separated;
    assert ([line] + lines)[1..] == lines && ([end] + ends)[1..] == ends;
    SeparatedStep([line] + lines, [end] + ends);
  }

  /** Every text is its lines with their separators. */
  lemma {:induction false} SplitIsExact(s: string) returns (ends: seq<string>)
    ensures Separated(SplitLines(s), ends) && Rejoined(SplitLines(s), ends) == s
    decreases |s|
  {
    hide PlainLine, Ends, Separated, LineLength, SplitLines, Rejoined;
    ends := [];
    if s == "" {
      EmptyText();
      NothingSeparated();
    } else {
      var line, end, rest := FirstLine(s);
      ends := SplitIsExact(rest);
      EndsMatch(SplitLines(rest), ends);
      PutFirst(line, end, SplitLines(rest), ends);
      SplitEnd(line, end, rest);
      ends := [end] + ends;
    }
  }

  lemma FirstLine(s: string) returns (line: string, end: string, rest: string)
    requires s != ""
    ensures s == line + (end + rest) && |rest| < |s| && PlainLine(line) && Ends(line, end, rest)
  {
    hide PlainLine, Ends;
    var n := LineLength(s);
    line := s[..n];
    end := if n == |s| then "" else if s[n] == '\r' && n + 1 < |s| && s[n + 1] == '\n' then "\r\n" else [s[n]];
    rest := s[n + |end|..];
    EndsHere(s, n, end, rest);
    assert s[n..] == end + rest;
  }

  lemma NothingSeparated()
    ensures Separated([], []) && Rejoined([], []) == ""
  {}

  lemma EndsHere(s: string, n: nat, end: string, rest: string)
    requires s != "" && n <= |s| && PlainLine(s[..n]) && (n < |s| ==> IsSeparator(s[n]))
    requires end == if n == |s| then "" else if s[n] == '\r' && n + 1 < |s| && s[n + 1] == '\n' then "\r\n" else [s[n]]
    requires n + |end| <= |s| && rest == s[n + |end|..]
    ensures Ends(s[..n], end, rest)
  {
    if n == |s| { assert s[..n] == s; }
  }

  // ---- the whole function ----

  /** `unified_patch_line_counts`: exactly the texts of whole patches are accepted, with their own counts. */
  method UnifiedPatchLineCounts(patch: string) returns (counts: Option<(nat, nat)>)
    ensures counts.Some? <==> exists p :: WholePatch(p) && PrintPatch(p) == SplitLines(patch)
    ensures forall p | WholePatch(p) && PrintPatch(p) == SplitLines(patch) ::
              counts == Some((TotalAdded(p.hunks), TotalRemoved(p.hunks)))
  {
    hide WholePatch, PrintPatch, ParseLines, TotalAdded, TotalRemoved, SplitLines;
    var lines := SplitLines(patch);
    forall p
      ensures ParseLines(lines) == Some(p) && WholePatch(p) <==> WholePatch(p) && PrintPatch(p) == lines
    {
      AcceptedIffPrinted(lines, p);
    }
    if patch == "" {
      EmptyText();
      NoEmptyPatch();
      return None;
    }
    counts := LineCounts(lines);
  }

  lemma NoEmptyPatch()
    ensures forall p | WholePatch(p) :: PrintPatch(p) != []
  {
    forall p | WholePatch(p)
      ensures PrintPatch(p) != []
    {}
  }

  /** A whole patch written out with line feeds is accepted with its own counts. */
  lemma WrittenPatchIsAccepted(p: Patch, terminated: bool)
    requires WholePatch(p) && forall i | 0 <= i < |PrintPatch(p)| :: PlainLine(PrintPatch(p)[i])
    requires terminated || PrintPatch(p)[|PrintPatch(p)| - 1] != ""
    ensures ParseLines(SplitLines(Text(PrintPatch(p), terminated))) == Some(p)
  {
    hide WholePatch, PrintPatch, SplitLines, Text, PlainLine;
    LinesReadBack(PrintPatch(p), terminated);
    AcceptedIffPrinted(PrintPatch(p), p);
  }

  /** Exactly the printed whole patches are accepted, with their own counts. */
  lemma AcceptedIffPrinted(lines: seq<string>, p: Patch)
    ensures ParseLines(lines) == Some(p) && WholePatch(p) <==> WholePatch(p) && PrintPatch(p) == lines
  {
    hide ParseLines, PrintPatch, Balanced;
    if ParseLines(lines) == Some(p) { ParsedIsPrinted(lines); }
    if WholePatch(p) && PrintPatch(p) == lines { PrintedIsParsed(p); }
  }

  /** What may come before the hunks of a whole patch: exactly lines of the eight kinds of file metadata. */
  lemma PreambleIff(meta: seq<string>, hunks: seq<Hunk>)
    ensures WholePatch(Patch(meta, hunks)) <==>
            && WholePatch(Patch([], hunks))
            && forall line | line in meta ::
                 exists kind | kind in METADATA_KINDS :: BeginsWith(line, kind)
  {
    hide IsMetadata, Balanced, WellFormedHeader, BeginsWith;
    forall line { MetadataIff(line); }
  }

  /** Stopping inside a hunk is noticed: a patch whose last hunk lacks declared lines is rejected. */
  lemma UnfinishedIsRejected(p: Patch)
    requires Shaped(p) && p.hunks != [] && !Balanced(p.hunks[|p.hunks| - 1])
    ensures !(ParseLines(PrintPatch(p)).Some? && WholePatch(ParseLines(PrintPatch(p)).value))
  {
    hide Balanced, ParseLines, PrintPatch;
    PrintedIsParsed(p);
  }
  // ---- counts that are left out ----

  /** The header with `,1` written out where a count is missing. */
  function WrittenOut(h: Header): Header {
    h.(oldCount := if h.oldCount.Some? then h.oldCount else Some("1"),
       newCount := if h.newCount.Some? then h.newCount else Some("1"))
  }

  function AllWrittenOut(hunks: seq<Hunk>): (r: seq<Hunk>)
    ensures |r| == |hunks| && forall i | 0 <= i < |r| :: r[i] == hunks[i].(header := WrittenOut(hunks[i].header))
  {
    seq(|hunks|, i requires 0 <= i < |hunks| => hunks[i].(header := WrittenOut(hunks[i].header)))
  }

  lemma OneIsOneLine()
    ensures Digits("1") && ParseNat("1") == 1
  {
    assert "1"[..0] == "";
  }

  /** A missing count declares one line: writing every such count out changes neither acceptance nor the counts. */
  lemma MissingCountIsOne(p: Patch)
    ensures var q := p.(hunks := AllWrittenOut(p.hunks));
            && (forall i | 0 <= i < |p.hunks| ::
                  var h, g := p.hunks[i].header, q.hunks[i].header;
                  && q.hunks[i].body == p.hunks[i].body && (g.oldStart, g.newStart) == (h.oldStart, h.newStart)
                  && g.oldCount == (if h.oldCount == None then Some("1") else h.oldCount)
                  && g.newCount == (if h.newCount == None then Some("1") else h.newCount))
            && (WholePatch(q) <==> WholePatch(p))
            && TotalAdded(q.hunks) == TotalAdded(p.hunks) && TotalRemoved(q.hunks) == TotalRemoved(p.hunks)
  {
    hide ParseNat, OldLines, NewLines, TotalAdded, TotalRemoved, IsMetadata, Digits;
    OneIsOneLine();
    var q := p.(hunks := AllWrittenOut(p.hunks));
    forall i | 0 <= i < |p.hunks|
      ensures WellFormedHeader(q.hunks[i].header) <==> WellFormedHeader(p.hunks[i].header)
      ensures Balanced(q.hunks[i]) <==> Balanced(p.hunks[i])
      ensures p.hunks[i] in p.hunks && q.hunks[i] in q.hunks
    {}
    SameBodiesSameTotals(p.hunks, q.hunks);
  }

  lemma {:induction false} SameBodiesSameTotals(a: seq<Hunk>, b: seq<Hunk>)
    requires |a| == |b| && forall i | 0 <= i < |a| :: a[i].body == b[i].body
    ensures TotalAdded(a) == TotalAdded(b) && TotalRemoved(a) == TotalRemoved(b)
  {
    if a != [] { SameBodiesSameTotals(a[..|a| - 1], b[..|b| - 1]); }
  }

  /** One line for another, without any count: accepted, with one line added and one removed. */
  lemma OneLineHunkIsAccepted(from: string, to: string, a: string, b: string)
    requires Digits(from) && Digits(to) && PlainLine(a) && PlainLine(b)
    ensures var lines := ["@@ -" + from + " +" + to + " @@", "-" + a, "+" + b];
            var p := Patch([], [Hunk(Header(from, None, to, None, ""), [Removed(a), Added(b)])]);
            && WholePatch(p) && PrintPatch(p) == lines && SplitLines(Text(lines, false)) == lines
            && TotalAdded(p.hunks) == 1 && TotalRemoved(p.hunks) == 1
  {
    hide SplitLines, Text, ParseNat;
    var h, body := Header(from, None, to, None, ""), [Removed(a), Added(b)];
    var p := Patch([], [Hunk(h, body)]);
    var lines := ["@@ -" + from + " +" + to + " @@", "-" + a, "+" + b];
    OneForOne(a, b);
    assert p.hunks[..0] == [];
    PlainHeader(from, to);
    assert PrintHunks(p.hunks) == [] + ([PrintHeader(h)] + PrintBody(body));
    LinesReadBack(lines, false);
  }

  lemma OneForOne(a: string, b: string)
    ensures var body := [Removed(a), Added(b)];
            && OldLines(body) == NewLines(body) == AddedLines(body) == RemovedLines(body) == 1
            && PrintBody(body) == ["-" + a, "+" + b]
  {
    BodyAppend([], Removed(a));
    BodyAppend([Removed(a)], Added(b));
    assert [] + [Removed(a)] == [Removed(a)] && [Removed(a)] + [Added(b)] == [Removed(a), Added(b)];
    assert [Removed(a), Added(b)][..1] == [Removed(a)] && [Removed(a)][..0] == [];
    assert PrintBody([Removed(a)]) == [] + ["-" + a];
  }

  lemma PlainHeader(from: string, to: string)
    requires Digits(from) && Digits(to)
    ensures PrintHeader(Header(from, None, to, None, "")) == "@@ -" + from + " +" + to + " @@"
    ensures PlainLine("@@ -" + from + " +" + to + " @@")
  {
    assert forall c | IsDigit(c) :: !IsSeparator(c);
    assert from + "" == from && to + "" == to;
  }

  // ---- counts that are written out ----

  /** The places of the body whose line begins with one of these marks. */
  ghost function Marked(body: seq<BodyLine>, marks: set<char>): set<int> {
    set i | 0 <= i < |body| && PrintBodyLine(body[i])[0] in marks
  }

  lemma MarkedGrows(body: seq<BodyLine>, marks: set<char>)
    requires body != []
    ensures var n := |body| - 1;
            |Marked(body, marks)| ==
              |Marked(body[..n], marks)| + (if PrintBodyLine(body[n])[0] in marks then 1 else 0)
  {
    var n := |body| - 1;
    var before := Marked(body[..n], marks);
    assert Marked(body, marks) == if PrintBodyLine(body[n])[0] in marks then before + {n} else before;
  }

  /** Old lines begin with a minus sign or a blank, new ones with a plus sign or a blank. */
  lemma {:induction false} LinesAreMarked(body: seq<BodyLine>)
    ensures OldLines(body) == |Marked(body, {'-', ' '})| && NewLines(body) == |Marked(body, {'+', ' '})|
    ensures AddedLines(body) == |Marked(body, {'+'})| && RemovedLines(body) == |Marked(body, {'-'})|
  {
    if body != [] {
      LinesAreMarked(body[..|body| - 1]);
      MarkedGrows(body, {'-', ' '});
      MarkedGrows(body, {'+', ' '});
      MarkedGrows(body, {'+'});
      MarkedGrows(body, {'-'});
    }
  }

  /** A hunk that declares a and b in decimal is balanced exactly when it has a old and b new lines. */
  lemma DeclaredCountsAreKept(from: string, a: nat, to: string, b: nat, tail: string, body: seq<BodyLine>)
    requires Digits(from) && Digits(to)
    ensures Balanced(Hunk(Header(from, Some(FormatNat(a)), to, Some(FormatNat(b)), tail), body)) <==>
            |Marked(body, {'-', ' '})| == a && |Marked(body, {'+', ' '})| == b
  {
    hide ParseNat, FormatNat, OldLines, NewLines, AddedLines, RemovedLines, Marked;
    ParseFormat(a);
    ParseFormat(b);
    LinesAreMarked(body);
  }

  // ---- patches that were cut off ----

  /** The patch up to the first `b` body lines of hunk `k`. */
  function Cut(p: Patch, k: nat, b: nat): Patch
    requires k < |p.hunks| && b <= |p.hunks[k].body|
  {
    p.(hunks := p.hunks[..k] + [p.hunks[k].(body := p.hunks[k].body[..b])])
  }

  lemma CutIsShaped(p: Patch, k: nat, b: nat)
    requires Shaped(p) && k < |p.hunks| && b <= |p.hunks[k].body|
    ensures Shaped(Cut(p, k, b))
  {
    hide WellFormedHeader, IsMetadata;
    var q := Cut(p, k, b);
    forall h | h in q.hunks
      ensures WellFormedHeader(h.header)
    {
      assert p.hunks[k] in p.hunks;
      if h != q.hunks[k] { assert h in p.hunks[..k]; }
    }
  }

  /** Without its last line, a cut patch is cut one line earlier. */
  lemma CutWithoutLast(p: Patch, k: nat, b: nat)
    requires k < |p.hunks| && b <= |p.hunks[k].body|
    ensures var q := WithoutLast(Cut(p, k, b)).0;
            if b > 0 then q == Cut(p, k, b - 1)
            else if k > 0 then q == Cut(p, k - 1, |p.hunks[k - 1].body|)
            else q == Patch(p.meta, [])
  {
    hide PrintHeader, PrintBodyLine;
    var c := Cut(p, k, b);
    assert c.hunks[..k] == p.hunks[..k];
    if b > 0 {
      assert p.hunks[k].body[..b][..b - 1] == p.hunks[k].body[..b - 1];
      assert WithoutLast(c).0.hunks == Cut(p, k, b - 1).hunks;
    } else if k > 0 {
      assert p.hunks[..k] == p.hunks[..k - 1] + [p.hunks[k - 1]];
      assert p.hunks[k - 1].body[..|p.hunks[k - 1].body|] == p.hunks[k - 1].body;
    } else {
      assert p.hunks[..0] == [];
    }
  }

  /** Without its last line, the print of a patch is the print of the patch without it. */
  lemma PrintWithoutLast(p: Patch)
    requires Shaped(p) && (p.hunks != [] || p.meta != [])
    ensures var q := WithoutLast(p).0; Shaped(q) && PrintPatch(p) == PrintPatch(q) + [WithoutLast(p).1]
  {
    hide Shaped, Extend, WithoutLast, PrintPatch;
    WithoutLastExtends(p);
    ExtendPrints(WithoutLast(p).0, WithoutLast(p).1);
  }

  /** Every prefix that goes beyond the metadata is the print of a cut patch. */
  lemma {:induction false} PrefixIsCut(p: Patch, n: nat) returns (k: nat, b: nat)
    requires Shaped(p) && |p.meta| < n <= |PrintPatch(p)|
    ensures k < |p.hunks| && b <= |p.hunks[k].body| && PrintPatch(p)[..n] == PrintPatch(Cut(p, k, b))
    decreases |PrintPatch(p)| - n
  {
    hide Shaped, PrintPatch, WithoutLast, Cut;
    var lines := PrintPatch(p);
    NoHunksPrint(p);
    if n == |lines| {
      k, b := |p.hunks| - 1, |p.hunks[|p.hunks| - 1].body|;
      CutNothing(p);
      assert lines[..n] == lines;
    } else {
      k, b := PrefixIsCut(p, n + 1);
      CutIsShaped(p, k, b);
      CutHasHunk(p, k, b);
      PrintWithoutLast(Cut(p, k, b));
      CutWithoutLast(p, k, b);
      assert lines[..n + 1][..n] == lines[..n];
      if b > 0 {
        b := b - 1;
      } else if k > 0 {
        k, b := k - 1, |p.hunks[k - 1].body|;
      } else {
        NoHunksPrint(Patch(p.meta, []));
        assert false;
      }
    }
  }

  lemma NoHunksPrint(p: Patch)
    ensures p.hunks == [] ==> PrintPatch(p) == p.meta
  {}

  lemma CutNothing(p: Patch)
    requires p.hunks != []
    ensures Cut(p, |p.hunks| - 1, |p.hunks[|p.hunks| - 1].body|) == p
  {
    var k := |p.hunks| - 1;
    assert p.hunks[k].body[..|p.hunks[k].body|] == p.hunks[k].body;
    assert p.hunks == p.hunks[..k] + [p.hunks[k]];
  }

  lemma CutHasHunk(p: Patch, k: nat, b: nat)
    requires k < |p.hunks| && b <= |p.hunks[k].body|
    ensures Cut(p, k, b).hunks != []
  {}

  /** The first n lines end inside hunk k, before all the lines that its header declares. */
  ghost predicate StopsInside(p: Patch, n: nat, k: nat, b: nat) {
    && k < |p.hunks| && b <= |p.hunks[k].body| && n <= |PrintPatch(p)| && PrintPatch(p)[..n] == PrintPatch(Cut(p, k, b))
    && !Balanced(Cut(p, k, b).hunks[k])
  }

  ghost predicate Accepts(lines: seq<string>) { ParseLines(lines).Some? && WholePatch(ParseLines(lines).value) }

  /** A cut of a whole patch is whole exactly when its last hunk is. */
  lemma CutIsWholeIff(p: Patch, k: nat, b: nat)
    requires WholePatch(p) && k < |p.hunks| && b <= |p.hunks[k].body|
    ensures Accepts(PrintPatch(Cut(p, k, b))) <==> Balanced(Cut(p, k, b).hunks[k])
  {
    hide Shaped, PrintPatch, Balanced, ParseLines;
    var q := Cut(p, k, b);
    CutIsShaped(p, k, b);
    PrintedIsParsed(q);
    forall i | 0 <= i < k ensures Balanced(q.hunks[i]) { assert q.hunks[i] == p.hunks[i]; }
  }

  /**
   The first lines of an accepted patch are rejected exactly when they stop before a hunk or
   inside an unfinished one.
   */
  lemma PrefixIsRejectedIff(p: Patch, n: nat)
    requires WholePatch(p) && n <= |PrintPatch(p)|
    ensures !Accepts(PrintPatch(p)[..n]) <==> n <= |p.meta| || exists k, b :: StopsInside(p, n, k, b)
  {
    hide PrintPatch, Balanced, ParseLines, Cut, WholePatch, Accepts;
    if n <= |p.meta| {
      MetadataIsRejected(p, n);
    } else {
      WholeIsShaped(p);
      var k, b := PrefixIsCut(p, n);
      CutIsWholeIff(p, k, b);
      if k', b' :| StopsInside(p, n, k', b') { CutIsWholeIff(p, k', b'); }
      assert StopsInside(p, n, k, b) <==> !Balanced(Cut(p, k, b).hunks[k]) by { CutHunks(p, k, b); }
    }
  }

  lemma CutHunks(p: Patch, k: nat, b: nat)
    requires k < |p.hunks| && b <= |p.hunks[k].body|
    ensures |Cut(p, k, b).hunks| == k + 1
  {}

  lemma WholeIsShaped(p: Patch)
    requires WholePatch(p)
    ensures Shaped(p)
  {}

  lemma MetadataIsRejected(p: Patch, n: nat)
    requires WholePatch(p) && n <= |p.meta|
    ensures n <= |PrintPatch(p)| && !Accepts(PrintPatch(p)[..n])
  {
    hide Balanced, IsMetadata, PrintHunks, ParseLines;
    var q := Patch(p.meta[..n], []);
    NoHunksPrint(q);
    assert PrintPatch(p)[..n] == p.meta[..n];
    PrintedIsParsed(q);
  }
}
