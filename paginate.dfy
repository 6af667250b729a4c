// The greedy line packing `updateListMessage` uses to cut a roster into
// messages of at most MAX_CHARS characters: lines are added to the current
// part until the next one would make it too long; each part is trimmed.

module Paginate {
  import opened Text

  const MAX_CHARS: int := 1950

  /** Each line followed by the newline the loop appends after it. */
  function Terminated(lines: seq<string>): (r: seq<string>)
    ensures |r| == |lines| && forall i :: 0 <= i < |lines| ==> r[i] == lines[i] + "\n"
  {
    seq(|lines|, i requires 0 <= i < |lines| => lines[i] + "\n")
  }

  /** The text of a part made of `lines`, before trimming. */
  function LinesText(lines: seq<string>): string
  {
    Concat(Terminated(lines))
  }

  /** The loop state: the parts already closed, each kept as its lines, and the open one. */
  datatype Packing = Packing(done: seq<seq<string>>, current: seq<string>)

  /** One iteration: close the open part first if `line` would push it over `max`. */
  function Step(p: Packing, line: string, max: int): Packing
  {
    var n := |LinesText(p.current)|;
    if n + |line| + 1 > max && n > 0 then Packing(p.done + [p.current], [line])
    else Packing(p.done, p.current + [line])
  }

  function Pack(lines: seq<string>, max: int): Packing
  {
    if lines == [] then Packing([], [])
    else Step(Pack(lines[..|lines| - 1], max), lines[|lines| - 1], max)
  }

  /** The parts as lists of lines: the closed ones, then the open one if non-empty. */
  function Chunks(lines: seq<string>, max: int): seq<seq<string>>
  {
    var p := Pack(lines, max);
    if |LinesText(p.current)| > 0 then p.done + [p.current] else p.done
  }

  /** The trimmed text of each part, as sent. */
  function TrimmedTexts(chunks: seq<seq<string>>): seq<string>
  {
    seq(|chunks|, i requires 0 <= i < |chunks| => Trim(LinesText(chunks[i])))
  }

  lemma TrimmedTextsSnoc(chunks: seq<seq<string>>, c: seq<string>)
    ensures TrimmedTexts(chunks + [c]) == TrimmedTexts(chunks) + [Trim(LinesText(c))]
  {
  }

  function RawTexts(chunks: seq<seq<string>>): (r: seq<string>)
    ensures |r| == |chunks| && forall i :: 0 <= i < |chunks| ==> r[i] == LinesText(chunks[i])
  {
    seq(|chunks|, i requires 0 <= i < |chunks| => LinesText(chunks[i]))
  }

  lemma LinesTextSnoc(lines: seq<string>, line: string)
    ensures LinesText(lines + [line]) == LinesText(lines) + line + "\n"
  {
    assert Terminated(lines + [line]) == Terminated(lines) + [line + "\n"];
    ConcatAppend(Terminated(lines), [line + "\n"]);
    assert [line + "\n"][..0] == [];
  }

  lemma LinesTextAppend(a: seq<string>, b: seq<string>)
    ensures LinesText(a + b) == LinesText(a) + LinesText(b)
  {
    assert Terminated(a + b) == Terminated(a) + Terminated(b);
    ConcatAppend(Terminated(a), Terminated(b));
  }

  /** A part's text is empty exactly when it has no lines. */
  lemma {:induction false} LinesTextEmpty(lines: seq<string>)
    ensures |LinesText(lines)| >= |lines|
    ensures |LinesText(lines)| == 0 <==> lines == []
  {
    if lines != [] {
      var init := lines[..|lines| - 1];
      assert lines == init + [lines[|lines| - 1]];
      LinesTextSnoc(init, lines[|lines| - 1]);
      LinesTextEmpty(init);
    }
  }

  /** The first line of a part ("" for none). */
  function Head(c: seq<string>): string
  {
    if c == [] then "" else c[0]
  }

  /** The part that follows closed part `i`: the next closed one, or the open one. */
  function NextPart(p: Packing, i: nat): seq<string>
  {
    if i + 1 < |p.done| then p.done[i + 1] else p.current
  }

  /** Each part has a line and fits in `max`, unless it is a single line. */
  ghost predicate Fits(c: seq<string>, max: int)
  {
    c != [] && (|LinesText(c)| <= max || |c| == 1)
  }

  /** What holds of the loop state after the lines `lines` (the loop invariant). */
  ghost predicate PackedWell(p: Packing, lines: seq<string>, max: int)
  {
    && Concat(p.done) + p.current == lines
    && (lines != [] ==> p.current != [])
    && (p.done != [] ==> p.current != [])
    && (forall c :: c in p.done ==> Fits(c, max))
    && (p.current == [] || Fits(p.current, max))
    && (forall i :: 0 <= i < |p.done| ==> |LinesText(p.done[i])| + |Head(NextPart(p, i))| + 1 > max)
  }

  /** The step that closes the open part keeps the invariant. */
  lemma StepClosingPackedWell(p: Packing, lines: seq<string>, line: string, max: int)
    requires PackedWell(p, lines, max)
    requires |LinesText(p.current)| + |line| + 1 > max && |LinesText(p.current)| > 0
    ensures PackedWell(Packing(p.done + [p.current], [line]), lines + [line], max)
  {
    var q := Packing(p.done + [p.current], [line]);
    LinesTextEmpty(p.current);
    LinesTextSnoc([], line);
    assert [] + [line] == [line];
    ConcatAppend(p.done, [p.current]);
    assert [p.current][..0] == [];
    assert Concat(q.done) == Concat(p.done) + p.current;
    forall i | 0 <= i < |q.done|
      ensures |LinesText(q.done[i])| + |Head(NextPart(q, i))| + 1 > max
    {
      if i + 1 < |p.done| {
        assert NextPart(q, i) == NextPart(p, i);
      } else if i + 1 == |p.done| {
        assert NextPart(q, i) == p.current == NextPart(p, i);
      } else {
        assert NextPart(q, i) == [line];
      }
    }
  }

  /** The step that adds the line to the open part keeps the invariant. */
  lemma StepExtendingPackedWell(p: Packing, lines: seq<string>, line: string, max: int)
    requires PackedWell(p, lines, max)
    requires !(|LinesText(p.current)| + |line| + 1 > max && |LinesText(p.current)| > 0)
    ensures PackedWell(Packing(p.done, p.current + [line]), lines + [line], max)
  {
    var q := Packing(p.done, p.current + [line]);
    LinesTextSnoc(p.current, line);
    LinesTextEmpty(p.current);
    assert Concat(q.done) + q.current == (Concat(p.done) + p.current) + [line];
    ExtendingKeepsGreedy(p, line, max);
    if p.current == [] {
      assert q.current == [line];
    }
  }

  /** Adding a line to a non-empty open part leaves the first line of every part as it was. */
  lemma ExtendingKeepsGreedy(p: Packing, line: string, max: int)
    requires p.done != [] ==> p.current != []
    requires forall i :: 0 <= i < |p.done| ==> |LinesText(p.done[i])| + |Head(NextPart(p, i))| + 1 > max
    ensures var q := Packing(p.done, p.current + [line]);
      forall i :: 0 <= i < |q.done| ==> |LinesText(q.done[i])| + |Head(NextPart(q, i))| + 1 > max
  {
    var q := Packing(p.done, p.current + [line]);
    assert p.current != [] ==> Head(q.current) == Head(p.current);
    forall i | 0 <= i < |q.done|
      ensures |LinesText(q.done[i])| + |Head(NextPart(q, i))| + 1 > max
    {
      assert Head(NextPart(q, i)) == Head(NextPart(p, i));
    }
  }

  /** One iteration of the loop keeps the invariant. */
  lemma StepPackedWell(p: Packing, lines: seq<string>, line: string, max: int)
    requires PackedWell(p, lines, max)
    ensures PackedWell(Step(p, line, max), lines + [line], max)
  {
    var n := |LinesText(p.current)|;
    if n + |line| + 1 > max && n > 0 {
      StepClosingPackedWell(p, lines, line, max);
    } else {
      StepExtendingPackedWell(p, lines, line, max);
    }
  }

  lemma {:induction false} PackPackedWell(lines: seq<string>, max: int)
    ensures PackedWell(Pack(lines, max), lines, max)
  {
    if lines != [] {
      var init, line := lines[..|lines| - 1], lines[|lines| - 1];
      assert lines == init + [line];
      PackPackedWell(init, max);
      StepPackedWell(Pack(init, max), init, line, max);
    }
  }

  /** No line is split or lost: the parts, read in order, are exactly the input lines. */
  lemma ChunksCoverLines(lines: seq<string>, max: int)
    ensures Concat(Chunks(lines, max)) == lines
  {
    PackPackedWell(lines, max);
    var p := Pack(lines, max);
    LinesTextEmpty(p.current);
    if |LinesText(p.current)| > 0 {
      ConcatAppend(p.done, [p.current]);
      assert [p.current][..0] == [];
    } else {
      assert p.current == [];
    }
  }

  /** Every part has at least one line and fits in `max`, unless it is a single
      overlong line; there is at least one part for a non-empty input. */
  lemma ChunksBounded(lines: seq<string>, max: int)
    ensures forall c :: c in Chunks(lines, max) ==> Fits(c, max)
    ensures lines != [] ==> |Chunks(lines, max)| >= 1
  {
    PackPackedWell(lines, max);
    LinesTextEmpty(Pack(lines, max).current);
  }

  /** The packing is greedy: a part is closed only when the first line of the
      next part would not have fitted into it. */
  lemma ChunksGreedy(lines: seq<string>, max: int)
    ensures forall i :: 0 <= i < |Chunks(lines, max)| - 1 ==>
      |LinesText(Chunks(lines, max)[i])| + |Head(Chunks(lines, max)[i + 1])| + 1 > max
  {
    PackPackedWell(lines, max);
    var p := Pack(lines, max);
    LinesTextEmpty(p.current);
    var cs := Chunks(lines, max);
    forall i | 0 <= i < |cs| - 1
      ensures |LinesText(cs[i])| + |Head(cs[i + 1])| + 1 > max
    {
      assert cs[i] == p.done[i];
      assert cs[i + 1] == NextPart(p, i);
    }
  }

  /** The untrimmed parts put back together give every line followed by a newline. */
  lemma {:induction false} RawTextsJoin(chunks: seq<seq<string>>)
    ensures Concat(RawTexts(chunks)) == LinesText(Concat(chunks))
  {
    if chunks != [] {
      var init := chunks[..|chunks| - 1];
      RawTextsJoin(init);
      assert RawTexts(chunks)[..|chunks| - 1] == RawTexts(init);
      LinesTextAppend(Concat(init), chunks[|chunks| - 1]);
    }
  }

  /** Splitting a text at newlines and re-terminating every line gives the text plus one newline. */
  lemma {:induction false} LinesTextOfSplit(text: string)
    ensures LinesText(Split(text, '\n')) == text + "\n"
  {
    JoinSplit(text, '\n');
    LinesTextIsJoin(Split(text, '\n'));
  }

  lemma {:induction false} LinesTextIsJoin(lines: seq<string>)
    requires lines != []
    ensures LinesText(lines) == Join(lines, '\n') + "\n"
    decreases |lines|
  {
    var init, line := lines[..|lines| - 1], lines[|lines| - 1];
    assert lines == init + [line];
    LinesTextSnoc(init, line);
    if init == [] {
      assert LinesText(init) == "";
    } else {
      LinesTextIsJoin(init);
      JoinSnoc(init, line, '\n');
    }
  }

  lemma {:induction false} JoinSnoc(ps: seq<string>, p: string, sep: char)
    requires ps != []
    ensures Join(ps + [p], sep) == Join(ps, sep) + [sep] + p
    decreases |ps|
  {
    if |ps| > 1 {
      assert (ps + [p])[1..] == ps[1..] + [p];
      JoinSnoc(ps[1..], p, sep);
    }
  }

  /** The paginated text put back together (before trimming) is the text plus a
      final newline, cut only at line ends. */
  lemma PaginateReassembles(text: string, max: int)
    ensures Concat(RawTexts(Chunks(Split(text, '\n'), max))) == text + "\n"
    ensures |Chunks(Split(text, '\n'), max)| >= 1
  {
    var lines := Split(text, '\n');
    RawTextsJoin(Chunks(lines, max));
    ChunksCoverLines(lines, max);
    LinesTextOfSplit(text);
    ChunksBounded(lines, max);
  }

  /** A text that fits, with its final newline, goes out as one message: the
      text itself, trimmed. */
  lemma FitsInOnePart(text: string, max: int)
    requires |text| + 1 <= max
    ensures |Chunks(Split(text, '\n'), max)| == 1
    ensures TrimmedTexts(Chunks(Split(text, '\n'), max)) == [Trim(text + "\n")]
  {
    var cs := Chunks(Split(text, '\n'), max);
    OnlyOnePart(text, max);
    PaginateReassembles(text, max);
    var raw := RawTexts(cs);
    assert raw[..0] == [];
    assert Concat(raw) == raw[0] == LinesText(cs[0]);
    assert TrimmedTexts(cs) == [Trim(LinesText(cs[0]))];
  }

  /** The count half of `FitsInOnePart`: two parts would hold more than the text. */
  lemma OnlyOnePart(text: string, max: int)
    requires |text| + 1 <= max
    ensures |Chunks(Split(text, '\n'), max)| == 1
  {
    var lines := Split(text, '\n');
    var cs := Chunks(lines, max);
    PaginateReassembles(text, max);
    if |cs| >= 2 {
      ChunksGreedy(lines, max);
      ChunksBounded(lines, max);
      assert cs[1] in cs;
      LinesTextHead(cs[1]);
      ConcatFirstTwo(RawTexts(cs));
      assert false;
    }
  }

  /** A part's text holds at least its first line and a newline. */
  lemma LinesTextHead(c: seq<string>)
    requires c != []
    ensures |LinesText(c)| >= |Head(c)| + 1
  {
    assert c == [c[0]] + c[1..];
    LinesTextAppend([c[0]], c[1..]);
    assert [c[0]] == [] + [c[0]];
    LinesTextSnoc([], c[0]);
  }

  /** The concatenation is at least as long as its first two pieces. */
  lemma ConcatFirstTwo<T>(parts: seq<seq<T>>)
    requires |parts| >= 2
    ensures |Concat(parts)| >= |parts[0]| + |parts[1]|
  {
    ConcatAround(parts, 1);
    assert parts[..1] == [] + [parts[0]];
  }

  lemma {:induction false} ConcatLengthBound(parts: seq<string>, max: int)
    requires forall p :: p in parts ==> |p| <= max
    ensures |Concat(parts)| <= |parts| * max
  {
    if parts != [] {
      var init := parts[..|parts| - 1];
      assert forall p :: p in init ==> p in parts;
      ConcatLengthBound(init, max);
      MulSucc(|init|, max);
    }
  }

  lemma MulSucc(n: int, m: int)
    ensures (n + 1) * m == n * m + m
  {
  }

  /** A part with one line fits when every line of the text it comes from fits. */
  lemma PartFits(cs: seq<seq<string>>, lines: seq<string>, max: int, i: nat)
    requires Concat(cs) == lines
    requires forall l :: l in lines ==> |l| + 1 <= max
    requires i < |cs| && Fits(cs[i], max)
    ensures |LinesText(cs[i])| <= max
  {
    if |cs[i]| == 1 {
      ElementInConcat(cs, i, 0);
      var line := cs[i][0];
      assert cs[i] == [] + [line];
      LinesTextSnoc([], line);
    }
  }

  /** Every element of every part is in the concatenation. */
  lemma {:induction false} ElementInConcat<T>(parts: seq<seq<T>>, i: nat, j: nat)
    requires i < |parts| && j < |parts[i]|
    ensures parts[i][j] in Concat(parts)
    decreases |parts|
  {
    var n := |parts| - 1;
    var init := parts[..n];
    if i == n {
      assert Concat(parts)[|Concat(init)| + j] == parts[i][j];
    } else {
      ElementInConcat(init, i, j);
    }
  }

  /** When every line fits, every part fits. */
  lemma ChunkFitsWhenLinesFit(lines: seq<string>, max: int, i: nat)
    requires forall l :: l in lines ==> |l| + 1 <= max
    requires i < |Chunks(lines, max)|
    ensures |LinesText(Chunks(lines, max)[i])| <= max
  {
    var cs := Chunks(lines, max);
    ChunksBounded(lines, max);
    assert Fits(cs[i], max) by {
      assert cs[i] in cs;
    }
    ChunksCoverLines(lines, max);
    PartFits(cs, lines, max, i);
  }

  /** When every line fits, a text needs at least |text| / max parts: 5000
      characters at 1950 per part give three or more. */
  lemma PartCountLowerBound(text: string, max: int)
    requires forall l :: l in Split(text, '\n') ==> |l| + 1 <= max
    ensures |Chunks(Split(text, '\n'), max)| * max >= |text| + 1
  {
    var lines := Split(text, '\n');
    var cs := Chunks(lines, max);
    var raw := RawTexts(cs);
    PaginateReassembles(text, max);
    forall r | r in raw ensures |r| <= max {
      var i :| 0 <= i < |cs| && r == raw[i];
      ChunkFitsWhenLinesFit(lines, max, i);
    }
    ConcatLengthBound(raw, max);
  }

  lemma FiveThousandCharacters(text: string)
    requires |text| == 5000
    requires forall l :: l in Split(text, '\n') ==> |l| + 1 <= MAX_CHARS
    ensures |Chunks(Split(text, '\n'), MAX_CHARS)| >= 3
  {
    PartCountLowerBound(text, MAX_CHARS);
  }

  lemma PackPrefix(lines: seq<string>, i: nat, max: int)
    requires i < |lines|
    ensures Pack(lines[..i + 1], max) == Step(Pack(lines[..i], max), lines[i], max)
  {
    assert lines[..i + 1][..i] == lines[..i];
  }

  /** What one iteration does to the texts: the open part's text grows by the
      line and a newline, after the trimmed open part is closed if needed. */
  lemma StepTexts(p: Packing, line: string, max: int)
    ensures var n := |LinesText(p.current)|;
      var closing := n + |line| + 1 > max && n > 0;
      && LinesText(Step(p, line, max).current) == (if closing then "" else LinesText(p.current)) + line + "\n"
      && TrimmedTexts(Step(p, line, max).done)
         == if closing then TrimmedTexts(p.done) + [Trim(LinesText(p.current))] else TrimmedTexts(p.done)
  {
    var n := |LinesText(p.current)|;
    if n + |line| + 1 > max && n > 0 {
      TrimmedTextsSnoc(p.done, p.current);
      assert [] + [line] == [line];
      LinesTextSnoc([], line);
    } else {
      LinesTextSnoc(p.current, line);
    }
  }

  /** The parts are the closed ones, then the open one when it has text. */
  lemma ChunksTexts(lines: seq<string>, max: int)
    ensures var p := Pack(lines, max);
      TrimmedTexts(Chunks(lines, max))
      == if |LinesText(p.current)| > 0 then TrimmedTexts(p.done) + [Trim(LinesText(p.current))] else TrimmedTexts(p.done)
  {
    var p := Pack(lines, max);
    if |LinesText(p.current)| > 0 {
      TrimmedTextsSnoc(p.done, p.current);
    }
  }

  /** The loop of `updateListMessage`, over the lines of the text to send. */
  method PackLines(lines: seq<string>, max: int) returns (parts: seq<string>)
    ensures parts == TrimmedTexts(Chunks(lines, max))
    ensures lines != [] ==> |parts| >= 1
  {
    parts := [];
    var currentPart := "";
    ghost var p := Packing([], []);
    for i := 0 to |lines|
      invariant p == Pack(lines[..i], max)
      invariant currentPart == LinesText(p.current)
      invariant parts == TrimmedTexts(p.done)
    {
      var line := lines[i];
      PackPrefix(lines, i, max);
      StepTexts(p, line, max);
      if |currentPart| + |line| + 1 > max && |currentPart| > 0 {
        parts := parts + [Trim(currentPart)];
        currentPart := "";
      }
      currentPart := currentPart + line + "\n";
      p := Step(p, line, max);
    }
    assert lines[..|lines|] == lines;
    ChunksTexts(lines, max);
    if |currentPart| > 0 {
      parts := parts + [Trim(currentPart)];
    }
    ChunksBounded(lines, max);
  }
}
