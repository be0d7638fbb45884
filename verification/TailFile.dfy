/** Reading the last n lines of a log file backward in chunks (of 64 KiB in the program,
    of any size here), against reading it whole. */
module TailFile {
  const TAIL_CHUNK := 64 * 1024

  const LF := '\n'

  function Count(s: string): nat {
    if s == [] then 0 else Count(s[..|s| - 1]) + (if s[|s| - 1] == LF then 1 else 0)
  }

  /** strings.TrimRight(s, "\n") */
  function Trim(s: string): string {
    if s != [] && s[|s| - 1] == LF then Trim(s[..|s| - 1]) else s
  }

  /** One past the last newline; 0 without one. */
  function LastLineStart(s: string): (k: nat)
    ensures k <= |s| && (k > 0 ==> s[k - 1] == LF)
    ensures forall i :: k <= i < |s| ==> s[i] != LF
  {
    if s == [] || s[|s| - 1] == LF then |s| else LastLineStart(s[..|s| - 1])
  }

  /** strings.Split(s, "\n") */
  function Split(s: string): seq<string>
    decreases |s|
  {
    var k := LastLineStart(s);
    if k == 0 then [s] else Split(s[..k - 1]) + [s[k..]]
  }

  function LastN(lines: seq<string>, n: nat): seq<string> {
    if |lines| > n then lines[|lines| - n..] else lines
  }

  /** The plain reading: trim the newlines at the end, split, keep the last n. */
  function TailOf(content: string, n: nat): seq<string> {
    if Trim(content) == [] then [] else LastN(Split(Trim(content)), n)
  }

  /** Where the backward loop stops reading, from `pos` on. */
  function Stop(content: string, pos: nat, n: nat, chunk: nat): (stop: nat)
    requires pos <= |content| && chunk > 0
    ensures stop <= pos
  {
    if pos == 0 || Count(content[pos..]) > n then pos
    else Stop(content, if chunk > pos then 0 else pos - chunk, n, chunk)
  }

  /** What the backward reading returns. */
  function Chunked(content: string, n: nat, chunk: nat): seq<string>
    requires chunk > 0
  {
    TailOf(content[Stop(content, |content|, n, chunk)..], n)
  }

  /** `tailFile` */
  method Tail(content: string, n: nat, chunk: nat) returns (lines: seq<string>)
    requires chunk > 0
    ensures lines == Chunked(content, n, chunk)
    ensures AtMostOneTrailing(content) ==> lines == TailOf(content, n)
  {
    var pos: nat, buf := |content|, [];
    while pos > 0 && Count(buf) <= n
      invariant pos <= |content| && buf == content[pos..]
      invariant Stop(content, pos, n, chunk) == Stop(content, |content|, n, chunk)
      decreases pos
    {
      var readSize := if chunk > pos then pos else chunk;
      pos := pos - readSize;
      buf := content[pos..pos + readSize] + buf;
    }
    var trimmed := Trim(buf);
    lines := if trimmed == [] then [] else LastN(Split(trimmed), n);
    if AtMostOneTrailing(content) {
      ChunkedIsTail(content, n, chunk);
    }
  }

  /** `TailLines`, once the file is found. */
  method TailLines(content: string, n: nat) returns (lines: seq<string>)
    ensures ReadsRight(content, TAIL_CHUNK) ==> lines == TailOf(content, n)
    ensures lines == Chunked(content, n, TAIL_CHUNK)
  {
    lines := Tail(content, n, TAIL_CHUNK);
    AgreeIff(content, TAIL_CHUNK);
  }

  // ---------------------------------------------------------------- what the last lines are

  /** The lines with a newline between any two. */
  function Joined(lines: seq<string>): string
    requires lines != []
  {
    if |lines| == 1 then lines[0] else Joined(lines[..|lines| - 1]) + [LF] + lines[|lines| - 1]
  }

  lemma LastLineAt(s: string, k: nat)
    requires k <= |s| && (k > 0 ==> s[k - 1] == LF) && forall i :: k <= i < |s| ==> s[i] != LF
    ensures LastLineStart(s) == k
  {
  }

  lemma LastLineAfter(front: string, line: string)
    requires LF !in line
    ensures var s := front + [LF] + line;
            LastLineStart(s) == |front| + 1 && s[..|front|] == front && s[|front| + 1..] == line
  {
    var s := front + [LF] + line;
    assert s[|front|] == LF && forall i :: |front| + 1 <= i < |s| ==> s[i] == line[i - |front| - 1];
    LastLineAt(s, |front| + 1);
  }

  lemma {:induction false} SplitOfJoined(lines: seq<string>)
    requires lines != [] && forall i :: 0 <= i < |lines| ==> LF !in lines[i]
    ensures Split(Joined(lines)) == lines
    decreases |lines|
  {
    var s, n := Joined(lines), |lines| - 1;
    if n == 0 {
      LastLineAt(s, 0);
    } else {
      LastLineAfter(Joined(lines[..n]), lines[n]);
      SplitOfJoined(lines[..n]);
      assert lines[..n] + [lines[n]] == lines;
    }
  }

  lemma {:induction false} TrimNewlines(s: string, m: nat)
    requires s != [] && s[|s| - 1] != LF
    ensures Trim(s + seq(m, _ => LF)) == s
    decreases m
  {
    var t := s + seq(m, _ => LF);
    if m == 0 {
      assert t == s;
    } else {
      assert t[..|t| - 1] == s + seq(m - 1, _ => LF);
      TrimNewlines(s, m - 1);
    }
  }

  /** A file of these lines, the last one not blank, and any number of newlines after it: the
      plain reading gives the last n of them, or all when there are no more. */
  lemma TailIs(lines: seq<string>, m: nat, n: nat)
    requires lines != [] && (forall i :: 0 <= i < |lines| ==> LF !in lines[i]) && lines[|lines| - 1] != ""
    ensures TailOf(Joined(lines) + seq(m, _ => LF), n) == if |lines| > n then lines[|lines| - n..] else lines
  {
    hide Joined, Split, Trim;
    JoinedEnds(lines);
    TrimNewlines(Joined(lines), m);
    SplitOfJoined(lines);
  }

  lemma JoinedEnds(lines: seq<string>)
    requires lines != [] && LF !in lines[|lines| - 1] && lines[|lines| - 1] != ""
    ensures Joined(lines) != [] && Joined(lines)[|Joined(lines)| - 1] != LF
  {
    var s, last := Joined(lines), lines[|lines| - 1];
    assert s[|s| - 1] == last[|last| - 1] && last[|last| - 1] in last;
  }

  /** A file of nothing but newlines has no lines. */
  lemma TailOfNothing(m: nat, n: nat)
    ensures TailOf(seq(m, _ => LF), n) == []
  {
    TrimAll(m);
  }

  lemma {:induction false} TrimAll(m: nat)
    ensures Trim(seq(m, _ => LF)) == []
    decreases m
  {
    if m > 0 {
      assert seq(m, _ => LF)[..m - 1] == seq(m - 1, _ => LF);
      TrimAll(m - 1);
    }
  }

  // ---------------------------------------------------------------- agreement

  /** No blank line at the end of the file, or nothing but newlines in it. */
  predicate AtMostOneTrailing(content: string) {
    |content| - |Trim(content)| <= 1 || Trim(content) == []
  }

  lemma {:induction false} TrimIs(s: string)
    ensures Trim(s) <= s && (Trim(s) != [] ==> Trim(s)[|Trim(s)| - 1] != LF)
    ensures forall i :: |Trim(s)| <= i < |s| ==> s[i] == LF
    ensures Count(s) == Count(Trim(s)) + |s| - |Trim(s)|
  {
    if s != [] && s[|s| - 1] == LF {
      TrimIs(s[..|s| - 1]);
    }
  }

  lemma {:induction false} TrimConcat(a: string, b: string)
    ensures Trim(a + b) == if Trim(b) == [] then Trim(a) else a + Trim(b)
    decreases |b|
  {
    if b == [] {
      assert a + b == a;
    } else if b[|b| - 1] == LF {
      assert (a + b)[..|a + b| - 1] == a + b[..|b| - 1];
      TrimConcat(a, b[..|b| - 1]);
    }
  }

  lemma {:induction false} NoNewlines(s: string)
    requires LastLineStart(s) == 0
    ensures Count(s) == 0
  {
    if s != [] {
      NoNewlines(s[..|s| - 1]);
    }
  }

  lemma {:induction false} CountBefore(s: string)
    requires LastLineStart(s) > 0
    ensures Count(s) == Count(s[..LastLineStart(s) - 1]) + 1
  {
    var k := LastLineStart(s);
    if k < |s| {
      CountBefore(s[..|s| - 1]);
      assert s[..|s| - 1][..k - 1] == s[..k - 1];
    }
  }

  lemma {:induction false} LastLineStartConcat(a: string, b: string)
    requires LastLineStart(b) > 0
    ensures LastLineStart(a + b) == |a| + LastLineStart(b)
    decreases |b|
  {
    if b[|b| - 1] != LF {
      assert (a + b)[..|a + b| - 1] == a + b[..|b| - 1];
      LastLineStartConcat(a, b[..|b| - 1]);
    }
  }

  /** The last line of a suffix that has one newline is the last line of the whole. */
  lemma SplitAppended(a: string, b: string)
    requires LastLineStart(b) > 0
    ensures var k := LastLineStart(b);
            Split(a + b) == Split(a + b[..k - 1]) + [b[k..]] && Split(b) == Split(b[..k - 1]) + [b[k..]]
  {
    hide LastLineStart;
    var k := LastLineStart(b);
    LastLineStartConcat(a, b);
    assert (a + b)[..|a| + k - 1] == a + b[..k - 1];
    assert (a + b)[|a| + k..] == b[k..];
  }

  lemma LastNone(lines: seq<string>)
    ensures LastN(lines, 0) == []
  {
  }

  /** The last n lines lie within any suffix that has n newlines. */
  lemma {:induction false} SuffixSuffices(a: string, b: string, n: nat)
    requires Count(b) >= n
    ensures LastN(Split(a + b), n) == LastN(Split(b), n)
    decreases n
  {
    hide *;
    var k := LastLineStart(b);
    if n == 0 {
      LastNone(Split(a + b));
      LastNone(Split(b));
    } else {
      if k == 0 {
        NoNewlines(b);
      } else {
        CountBefore(b);
        SplitAppended(a, b);
        var front, line := b[..k - 1], b[k..];
        SuffixSuffices(a, front, n - 1);
        LastOfSnoc(Split(a + front), line, n);
        LastOfSnoc(Split(front), line, n);
      }
    }
  }

  lemma LastOfSnoc(lines: seq<string>, line: string, n: nat)
    requires n > 0
    ensures LastN(lines + [line], n) == LastN(lines, n - 1) + [line]
  {
  }

  lemma {:induction false} StopReason(content: string, pos: nat, n: nat, chunk: nat)
    requires pos <= |content| && chunk > 0
    ensures var stop := Stop(content, pos, n, chunk); stop == 0 || Count(content[stop..]) > n
    decreases pos
  {
    if pos > 0 && Count(content[pos..]) <= n {
      StopReason(content, if chunk > pos then 0 else pos - chunk, n, chunk);
    }
  }

  /** Wherever the chunk boundaries fall, the backward reading gives the last n lines. */
  lemma ChunkedIsTail(content: string, n: nat, chunk: nat)
    requires chunk > 0 && AtMostOneTrailing(content)
    ensures Chunked(content, n, chunk) == TailOf(content, n)
  {
    var stop := Stop(content, |content|, n, chunk);
    StopReason(content, |content|, n, chunk);
    var a, b := content[..stop], content[stop..];
    assert content == a + b;
    TrimConcat(a, b);
    TrimIs(b);
    TrimIs(a);
    TrimIs(content);
    if stop == 0 {
      assert b == content;
    } else if Trim(b) == [] {
      // b is all newlines; either the whole file is, or b is the one newline at its end
      if Trim(content) != [] {
        assert |b| == 1 && n == 0;
      }
    } else {
      SuffixSuffices(a, Trim(b), n);
    }
  }

  // ---------------------------------------------------------------- the exact condition

  /** Every chunk boundary below `pos` lies right after a newline. */
  predicate CutsAtLines(content: string, pos: nat, chunk: nat)
    requires pos <= |content| && chunk > 0
    decreases pos
  {
    pos <= chunk || (content[pos - chunk - 1] == LF && CutsAtLines(content, pos - chunk, chunk))
  }

  /** Files that the loop reads right whatever n: no blank line at the end, or nothing but
      newlines, or a single read, or exactly one blank line at the end and boundaries that
      split no line. */
  predicate ReadsRight(content: string, chunk: nat)
    requires chunk > 0
  {
    || AtMostOneTrailing(content)
    || |content| <= chunk
    || (|content| - |Trim(content)| == 2 && CutsAtLines(content, |content|, chunk))
  }

  lemma {:induction false} SplitCounts(s: string)
    ensures |Split(s)| == Count(s) + 1
    decreases |s|
  {
    var k := LastLineStart(s);
    if k == 0 {
      NoNewlines(s);
    } else {
      CountBefore(s);
      SplitCounts(s[..k - 1]);
    }
  }

  /** Cutting a text anywhere: the pieces' lines are the text's, the cut one joined. */
  lemma {:induction false} SplitJoined(a: string, b: string)
    ensures Split(a) != [] && Split(b) != []
    ensures var (x, y) := (Split(a), Split(b)); Split(a + b) == x[..|x| - 1] + [x[|x| - 1] + y[0]] + y[1..]
    decreases |b|
  {
    hide *;
    SplitCounts(a);
    SplitCounts(b);
    SplitUnfolds(b);
    var k := LastLineStart(b);
    if k == 0 {
      SplitLast(a, b);
    } else {
      var front := b[..k - 1];
      SplitAppended(a, b);
      SplitCounts(front);
      SplitJoined(a, front);
    }
  }

  /** Text without a newline joins the last line. */
  lemma {:induction false} SplitLast(a: string, b: string)
    requires LastLineStart(b) == 0
    ensures var x := Split(a); x != [] && Split(a + b) == x[..|x| - 1] + [x[|x| - 1] + b]
    decreases |b|
  {
    hide Split, LastLineStart;
    var k := LastLineStart(a);
    LastLineStartExtends(a, b);
    SplitUnfolds(a);
    SplitUnfolds(a + b);
    if k == 0 {
      assert Split(a) == [a] && Split(a + b) == [a + b];
    } else {
      assert (a + b)[..k - 1] == a[..k - 1] && (a + b)[k..] == a[k..] + b;
    }
  }

  lemma SplitUnfolds(s: string)
    ensures var k := LastLineStart(s); Split(s) == if k == 0 then [s] else Split(s[..k - 1]) + [s[k..]]
  {
  }

  lemma {:induction false} LastLineStartExtends(a: string, b: string)
    requires LastLineStart(b) == 0
    ensures LastLineStart(a + b) == LastLineStart(a)
    decreases |b|
  {
    if b == [] {
      assert a + b == a;
    } else {
      var front := b[..|b| - 1];
      assert (a + b)[..|a + b| - 1] == a + front;
      LastLineStartExtends(a, front);
    }
  }

  lemma {:induction false} LastLineEmptyIff(a: string)
    requires a != []
    ensures Split(a) != [] && (Split(a)[|Split(a)| - 1] == [] <==> a[|a| - 1] == LF)
  {
    SplitUnfolds(a);
    SplitCounts(a);
  }

  lemma {:induction false} CountConcat(a: string, b: string)
    ensures Count(a + b) == Count(a) + Count(b)
    decreases |b|
  {
    if b == [] {
      assert a + b == a;
    } else {
      assert (a + b)[..|a + b| - 1] == a + b[..|b| - 1];
      CountConcat(a, b[..|b| - 1]);
    }
  }

  /** A cut that loses something: the reading that stops here returns the lines of the suffix,
      and those are not the last n lines of the file. */
  lemma CutLoses(content: string, p: nat)
    requires 0 < p && p + 2 <= |content| && |content| - |Trim(content)| >= 2 && Trim(content) != []
    requires |content| - |Trim(content)| > 2 || content[p - 1] != LF
    ensures Count(content[p..]) >= 2
    ensures var n := Count(content[p..]) - 1; TailOf(content[p..], n) != TailOf(content, n)
  {
    hide *;
    var a, b := content[..p], content[p..];
    CutPieces(content, p);
    TwoCounted(b);
    TrimCount(b);
    TrimConcat(a, b);
    var n := Count(b) - 1;
    TailCases(b, n);
    TailCases(content, n);
    if Trim(b) != [] {
      PiecesDiffer(a, Trim(b), n, content[p - 1] == LF);
    }
  }

  lemma CutPieces(content: string, p: nat)
    requires 0 < p && p + 2 <= |content| && |content| - |Trim(content)| >= 2
    ensures var (a, b) := (content[..p], content[p..]);
            && content == a + b && a != [] && a[|a| - 1] == content[p - 1]
            && |b| >= 2 && b[|b| - 1] == LF && b[|b| - 2] == LF
  {
    hide *;
    TwoAtEnd(content);
  }

  lemma TrimCount(s: string)
    ensures Count(s) == Count(Trim(s)) + |s| - |Trim(s)|
  {
    TrimIs(s);
  }

  lemma TailCases(s: string, n: nat)
    ensures Trim(s) == [] ==> TailOf(s, n) == []
    ensures Trim(s) != [] ==> TailOf(s, n) == LastN(Split(Trim(s)), n) && (n > 0 ==> TailOf(s, n) != [])
  {
    hide Trim, Split;
    SplitCounts(Trim(s));
  }

  lemma PiecesDiffer(a: string, b: string, n: nat, atLine: bool)
    requires a != [] && (atLine <==> a[|a| - 1] == LF)
    requires Count(b) < n && (atLine ==> Count(b) + 1 < n)
    ensures LastN(Split(a + b), n) != LastN(Split(b), n)
  {
    hide *;
    SplitJoined(a, b);
    SplitCounts(b);
    SplitCounts(a);
    LastLineEmptyIff(a);
    OneLine(a);
    JoinedDiffers(Split(a), Split(b), n);
  }

  lemma TwoAtEnd(s: string)
    requires |s| - |Trim(s)| >= 2
    ensures s[|s| - 1] == LF && s[|s| - 2] == LF
  {
    TrimIs(s);
  }

  lemma TwoCounted(b: string)
    requires |b| >= 2 && b[|b| - 1] == LF && b[|b| - 2] == LF
    ensures Count(b) >= 2
  {
    var c := b[..|b| - 1];
    assert c[|c| - 1] == LF;
    assert Count(b) == Count(c) + 1 && Count(c) == Count(c[..|c| - 1]) + 1;
  }

  lemma OneLine(a: string)
    ensures |Split(a)| == 1 ==> Split(a)[0] == a
  {
    SplitUnfolds(a);
    SplitCounts(a);
    if LastLineStart(a) > 0 {
      CountBefore(a);
    }
  }

  /** The last n of the joined lines are not the second part's lines alone. */
  lemma JoinedDiffers(x: seq<string>, y: seq<string>, n: nat)
    requires x != [] && y != [] && |y| <= n && (|x| == 1 ==> x[0] != [])
    requires |y| < n || x[|x| - 1] != []
    ensures LastN(x[..|x| - 1] + [x[|x| - 1] + y[0]] + y[1..], n) != LastN(y, n)
  {
    var front, middle, back := x[..|x| - 1], x[|x| - 1] + y[0], y[1..];
    var joined := front + [middle] + back;
    assert |joined| == |x| + |y| - 1;
    MiddleOf(front, middle, back);
    assert LastN(y, n) == y;
    if |joined| <= n {
      assert LastN(joined, n) == joined;
    } else {
      assert |LastN(joined, n)| == n;
      if n == |y| {
        assert LastN(joined, n)[0] == joined[|front|];
      }
    }
    assert x[|x| - 1] != [] ==> |middle| > |y[0]|;
  }

  lemma MiddleOf(front: seq<string>, middle: string, back: seq<string>)
    ensures (front + [middle] + back)[|front|] == middle
  {
  }

  /** From a boundary right after a newline down to the first one that is not: the loop stops
      there for n one below the newlines it has then seen. */
  lemma {:induction false} FirstBadCut(content: string, pos: nat, chunk: nat) returns (p: nat)
    requires 0 < pos <= |content| && chunk > 0 && content[pos - 1] == LF && !CutsAtLines(content, pos, chunk)
    ensures 0 < p < pos && content[p - 1] != LF && Count(content[pos..]) < Count(content[p..])
    ensures Stop(content, pos, Count(content[p..]) - 1, chunk) == p
    decreases pos
  {
    var next := pos - chunk;
    var middle := content[next..pos];
    assert content[next..] == middle + content[pos..] && middle[|middle| - 1] == LF;
    CountConcat(middle, content[pos..]);
    if content[next - 1] != LF {
      p := next;
    } else {
      p := FirstBadCut(content, next, chunk);
    }
  }

  lemma {:induction false} StopAtLine(content: string, pos: nat, n: nat, chunk: nat)
    requires pos <= |content| && chunk > 0 && CutsAtLines(content, pos, chunk)
    ensures var stop := Stop(content, pos, n, chunk); stop == pos || stop == 0 || content[stop - 1] == LF
    decreases pos
  {
    if pos > chunk && Count(content[pos..]) <= n {
      StopAtLine(content, pos - chunk, n, chunk);
    }
  }

  /** One blank line at the end, and boundaries that split no line. */
  lemma CutsReadRight(content: string, n: nat, chunk: nat)
    requires chunk > 0 && |content| - |Trim(content)| == 2 && CutsAtLines(content, |content|, chunk)
    ensures Chunked(content, n, chunk) == TailOf(content, n)
  {
    var stop := Stop(content, |content|, n, chunk);
    StopAtLine(content, |content|, n, chunk);
    StopReason(content, |content|, n, chunk);
    assert content[|content|..] == [];
    var a, b := content[..stop], content[stop..];
    assert content == a + b;
    if stop == 0 {
      assert b == content;
    } else {
      TwoAtEndReadRight(a, b, n);
    }
  }

  lemma TwoAtEndReadRight(a: string, b: string, n: nat)
    requires a != [] && a[|a| - 1] == LF && |a + b| - |Trim(a + b)| == 2 && Count(b) > n
    ensures TailOf(b, n) == TailOf(a + b, n)
  {
    hide Split;
    TrimConcat(a, b);
    TrimIs(a);
    TrimIs(b);
    TrimIs(a + b);
    if Trim(b) != [] {
      SuffixOfLines(a, Trim(b), n);
    } else {
      assert Trim(a) != a;
      assert |b| == 1 && n == 0;
    }
  }

  /** A suffix that begins a line holds the last n lines once it has n lines. */
  lemma SuffixOfLines(a: string, b: string, n: nat)
    requires a != [] && a[|a| - 1] == LF && Count(b) + 1 >= n
    ensures LastN(Split(a + b), n) == LastN(Split(b), n)
  {
    hide Split, Count, LastN;
    SplitJoined(a, b);
    SplitCounts(b);
    LastLineEmptyIff(a);
    JoinedAtLine(Split(a), Split(b), n);
  }

  lemma JoinedAtLine(x: seq<string>, y: seq<string>, n: nat)
    requires x != [] && y != [] && x[|x| - 1] == [] && |y| >= n
    ensures LastN(x[..|x| - 1] + [x[|x| - 1] + y[0]] + y[1..], n) == LastN(y, n)
  {
    var front, head := x[..|x| - 1], x[|x| - 1] + y[0];
    assert head == y[0];
    Regroup(front, y);
    LastOfConcat(front, y, n);
  }

  lemma Regroup(front: seq<string>, y: seq<string>)
    requires y != []
    ensures front + [y[0]] + y[1..] == front + y
  {
  }

  lemma LastOfConcat(front: seq<string>, y: seq<string>, n: nat)
    requires |y| >= n
    ensures LastN(front + y, n) == LastN(y, n)
  {
    var k := |y| - n;
    assert (front + y)[|front| + k..] == y[k..];
  }

  /** For the program's chunk size, or any other: the backward reading gives the last n lines
      of the file, for every n, exactly when the file reads right. */
  lemma AgreeIff(content: string, chunk: nat)
    requires chunk > 0
    ensures (forall n: nat :: Chunked(content, n, chunk) == TailOf(content, n)) <==> ReadsRight(content, chunk)
  {
    if ReadsRight(content, chunk) {
      forall n: nat ensures Chunked(content, n, chunk) == TailOf(content, n) {
        if AtMostOneTrailing(content) {
          ChunkedIsTail(content, n, chunk);
        } else if |content| <= chunk {
          assert content[|content|..] == [] && content[0..] == content;
        } else {
          CutsReadRight(content, n, chunk);
        }
      }
    } else {
      var n := Loses(content, chunk);
    }
  }

  /** An n for which a file that does not read right is read wrong. */
  lemma Loses(content: string, chunk: nat) returns (n: nat)
    requires chunk > 0 && !ReadsRight(content, chunk)
    ensures Chunked(content, n, chunk) != TailOf(content, n)
  {
    if |content| - |Trim(content)| == 2 {
      n := LosesAtBadCut(content, chunk);
    } else {
      n := LosesBlankLines(content, chunk);
    }
  }

  lemma LosesAtBadCut(content: string, chunk: nat) returns (n: nat)
    requires chunk > 0 && |content| - |Trim(content)| == 2 && Trim(content) != []
    requires !CutsAtLines(content, |content|, chunk)
    ensures Chunked(content, n, chunk) != TailOf(content, n)
  {
    hide *;
    TwoAtEnd(content);
    var p := FirstBadCut(content, |content|, chunk);
    assert p != |content| - 1;
    CutLoses(content, p);
    n := Count(content[p..]) - 1;
    ChunkedIs(content, n, chunk);
  }

  lemma LosesBlankLines(content: string, chunk: nat) returns (n: nat)
    requires chunk > 0 && |content| - |Trim(content)| > 2 && Trim(content) != [] && |content| > chunk
    ensures Chunked(content, n, chunk) != TailOf(content, n)
  {
    hide *;
    LastTwo(content);
    var p := if chunk == 1 then |content| - 2 else |content| - chunk;
    CutLoses(content, p);
    n := Count(content[p..]) - 1;
    StopsAtOnce(content, n, chunk);
    ChunkedIs(content, n, chunk);
  }

  lemma LastTwo(content: string)
    requires |content| - |Trim(content)| >= 2
    ensures content[|content| - 1] == LF && (|content| - |Trim(content)| > 2 ==> |content| > 2)
  {
    TwoAtEnd(content);
  }

  lemma ChunkedIs(content: string, n: nat, chunk: nat)
    requires chunk > 0
    ensures Chunked(content, n, chunk) == TailOf(content[Stop(content, |content|, n, chunk)..], n)
  {
    hide Stop, TailOf;
  }

  /** The first stop when a single newline is not enough. */
  lemma StopsAtOnce(content: string, n: nat, chunk: nat)
    requires chunk > 0 && |content| > chunk && |content| > 2 && content[|content| - 1] == LF
    requires var p := if chunk == 1 then |content| - 2 else |content| - chunk; Count(content[p..]) > n && n >= 1
    ensures Stop(content, |content|, n, chunk) == if chunk == 1 then |content| - 2 else |content| - chunk
  {
    var m := |content|;
    assert content[m..] == [] && content[m - 1..] == [LF];
    assert Count([LF]) == 1 by {
      assert [LF][..0] == [];
    }
    if chunk == 1 {
      assert Stop(content, m - 1, n, chunk) == Stop(content, m - 2, n, chunk) == m - 2;
    } else {
      assert Stop(content, m - chunk, n, chunk) == m - chunk;
    }
  }

  /** The program's chunk size, and a file that is read wrong: one line of 64 KiB and a blank
      line after it. The last line comes back without its first two characters. */
  lemma LongLineIsCut()
    ensures var content := seq(TAIL_CHUNK, i => 'x') + [LF, LF];
            Chunked(content, 1, TAIL_CHUNK) != TailOf(content, 1)
  {
    var line := seq(TAIL_CHUNK, i => 'x');
    var content := line + [LF, LF];
    TrimIs(content);
    var m := |content|;
    assert content[m..] == [] && content[2..] == line[2..] + [LF, LF];
    TwoNewlines(line);
    TwoNewlines(line[2..]);
    CutLoses(content, 2);
    assert Stop(content, 2, 1, TAIL_CHUNK) == 2;
    assert Stop(content, m, 1, TAIL_CHUNK) == 2;
  }

  lemma {:induction false} TwoNewlines(line: string)
    requires LF !in line && line != []
    ensures Trim(line + [LF, LF]) == line && Count(line + [LF, LF]) == 2
  {
    TrimIs(line + [LF, LF]);
    var (s, t) := (line + [LF, LF], line + [LF]);
    assert s[..|s| - 1] == t && t[..|t| - 1] == line;
    assert Trim(s) == Trim(t) == Trim(line) == line;
    NoneCounted(line);
  }

  lemma {:induction false} NoneCounted(line: string)
    requires LF !in line
    ensures Count(line) == 0
  {
    if line != [] {
      NoneCounted(line[..|line| - 1]);
    }
  }
}
