/** The mbox printer of the export page against the mbox parser of the importer: mboxrd
    quoting, one blank line after each message, and on both sides Go's bufio.ScanLines. */
module Mbox {
  newtype byte = x: int | 0 <= x < 256

  type bytes = seq<byte>

  const LF: byte := 10
  const CR: byte := 13
  const GT: byte := 62
  const FROM: bytes := [70, 114, 111, 109, 32]

  // ---------------------------------------------------------------- bufio.ScanLines

  /** Where the first line ends: the index of the first LF, or the end of the data. */
  function LineEnd(data: bytes): (k: nat)
    ensures k <= |data| && (k < |data| ==> data[k] == LF)
    ensures forall i :: 0 <= i < k ==> data[i] != LF
  {
    if data == [] || data[0] == LF then 0 else 1 + LineEnd(data[1..])
  }

  function DropCR(line: bytes): bytes {
    if line != [] && line[|line| - 1] == CR then line[..|line| - 1] else line
  }

  function Rest(data: bytes): bytes {
    var k := LineEnd(data);
    if k < |data| then data[k + 1..] else []
  }

  /** The tokens of ScanLines: one trailing CR dropped per line, and a last line without LF. */
  function Lines(data: bytes): seq<bytes>
    decreases |data|
  {
    if data == [] then [] else [DropCR(data[..LineEnd(data)])] + Lines(Rest(data))
  }

  // ---------------------------------------------------------------- quoting

  lemma LinesStep(data: bytes)
    requires data != []
    ensures Lines(data) == [DropCR(data[..LineEnd(data)])] + Lines(Rest(data)) && |Rest(data)| < |data|
  {
  }

  predicate HasPrefix(line: bytes, prefix: bytes) {
    prefix <= line
  }

  /** The pattern ^>*From */
  predicate FromPattern(line: bytes) {
    HasPrefix(line, FROM) || (line != [] && line[0] == GT && FromPattern(line[1..]))
  }

  function Escape(line: bytes): bytes {
    if FromPattern(line) then [GT] + line else line
  }

  /** `unescapeMboxFromLine`, or the line as it is. */
  function Unescape(line: bytes): bytes {
    if line != [] && line[0] == GT && FromPattern(line[1..]) then line[1..] else line
  }

  /** Any number of '>', then "From ". */
  lemma {:induction false} FromPatternIs(line: bytes)
    ensures FromPattern(line) <==>
            exists n :: 0 <= n <= |line| && (forall i :: 0 <= i < n ==> line[i] == 62) &&
              [70, 114, 111, 109, 32] <= line[n..]
    decreases |line|
  {
    assert line[0..] == line;
    if line != [] && line[0] == GT {
      var rest := line[1..];
      FromPatternIs(rest);
      if n :| 0 <= n <= |rest| && (forall i :: 0 <= i < n ==> rest[i] == 62) && FROM <= rest[n..] {
        assert rest[n..] == line[n + 1..];
        assert forall i :: 0 <= i < n + 1 ==> line[i] == if i == 0 then 62 else rest[i - 1];
      }
      if n :| 0 <= n <= |line| && (forall i :: 0 <= i < n ==> line[i] == 62) && FROM <= line[n..] {
        if n > 0 {
          assert line[n..] == rest[n - 1..];
          assert forall i :: 0 <= i < n - 1 ==> rest[i] == line[i + 1];
        }
      }
    }
  }

  lemma {:induction false} FromPatternIgnoresCR(line: bytes)
    ensures FromPattern(DropCR(line)) <==> FromPattern(line)
    decreases |line|
  {
    assert HasPrefix(DropCR(line), FROM) <==> HasPrefix(line, FROM) by {
      if HasPrefix(line, FROM) {
        assert line[4] == FROM[4];
      }
    }
    if line != [] && line[0] == GT {
      FromPatternIgnoresCR(line[1..]);
      if |line| > 1 {
        assert DropCR(line)[1..] == DropCR(line[1..]);
      }
    }
  }

  /** No escaped line is a separator, and the reader recovers the line the writer had, one
      more trailing CR dropped. */
  lemma EscapedReadsBack(line: bytes)
    ensures !HasPrefix(DropCR(Escape(line)), FROM)
    ensures Unescape(DropCR(Escape(line))) == DropCR(line)
  {
    FromPatternIgnoresCR(line);
    if FromPattern(line) {
      assert line != [];
      assert DropCR([GT] + line) == [GT] + DropCR(line);
      assert ([GT] + DropCR(line))[1..] == DropCR(line);
      assert ([GT] + DropCR(line))[0] != FROM[0];
    }
  }

  // ---------------------------------------------------------------- printer

  function Body(lines: seq<bytes>): bytes {
    if lines == [] then [] else Escape(lines[0]) + [LF] + Body(lines[1..])
  }

  /** One message of the stream. `envelope` is "<sender> <date>". */
  function Entry(envelope: bytes, content: bytes): bytes {
    FROM + envelope + [LF] + Body(Lines(content)) + [LF]
  }

  function Stream(entries: seq<(bytes, bytes)>): bytes {
    if entries == [] then [] else Entry(entries[0].0, entries[0].1) + Stream(entries[1..])
  }

  // ---------------------------------------------------------------- parser

  function TrimLF(text: bytes): bytes {
    if text != [] && text[|text| - 1] == LF then text[..|text| - 1] else text
  }

  function Flushed(started: bool, current: bytes): seq<bytes> {
    if started then [TrimLF(current)] else []
  }

  /** The messages of the remaining lines, given what was collected so far. */
  function Walk(lines: seq<bytes>, started: bool, current: bytes): seq<bytes>
    decreases |lines|
  {
    if lines == [] then Flushed(started, current)
    else if HasPrefix(lines[0], FROM) then Flushed(started, current) + Walk(lines[1..], true, [])
    else Walk(lines[1..], started, if started then current + Unescape(lines[0]) + [LF] else current)
  }

  function Parsed(data: bytes): seq<bytes> {
    Walk(Lines(data), false, [])
  }

  // ---------------------------------------------------------------- round trip

  /** What comes back for a message: per line, one CR dropped by each side, LF-terminated. */
  function Message(content: bytes): bytes
    decreases |content|
  {
    if content == [] then []
    else DropCR(DropCR(content[..LineEnd(content)])) + [LF] + Message(Rest(content))
  }

  lemma {:induction false} LineEndAt(line: bytes, rest: bytes)
    requires LF !in line
    ensures LineEnd(line + [LF] + rest) == |line| && Rest(line + [LF] + rest) == rest
  {
    var data := line + [LF] + rest;
    assert data[|line|] == LF;
    assert forall i :: 0 <= i < |line| ==> data[i] == line[i];
  }

  /** Scanning a terminated line off the front. */
  lemma ScanOne(line: bytes, rest: bytes)
    requires LF !in line
    ensures Lines(line + [LF] + rest) == [DropCR(line)] + Lines(rest)
  {
    LineEndAt(line, rest);
    assert (line + [LF] + rest)[..|line|] == line;
  }

  lemma {:induction false} LinesHaveNoLF(data: bytes)
    ensures forall i :: 0 <= i < |Lines(data)| ==> LF !in Lines(data)[i] && LF !in Escape(Lines(data)[i])
    decreases |data|
  {
    if data != [] {
      LinesHaveNoLF(Rest(data));
    }
  }

  lemma WalkOne(line: bytes, lines: seq<bytes>, started: bool, current: bytes)
    ensures HasPrefix(line, FROM) ==>
      Walk([line] + lines, started, current) == Flushed(started, current) + Walk(lines, true, [])
    ensures !HasPrefix(line, FROM) ==>
              Walk([line] + lines, started, current) ==
                Walk(lines, started, if started then current + Unescape(line) + [LF] else current)
  {
    assert ([line] + lines)[1..] == lines;
  }

  /** The reader's state while it goes through the body of one message. */
  lemma {:induction false} WalkBody(lines: seq<bytes>, current: bytes, rest: bytes)
    requires forall i :: 0 <= i < |lines| ==> LF !in Escape(lines[i])
    ensures Walk(Lines(Body(lines) + rest), true, current) == Walk(Lines(rest), true, current + Joined(lines))
    decreases |lines|
  {
    hide Walk, Lines, Escape, Unescape, DropCR, HasPrefix;
    if lines == [] {
      assert Body(lines) + rest == rest;
      assert current + Joined(lines) == current;
    } else {
      var line, after := Escape(lines[0]), Body(lines[1..]) + rest;
      assert Body(lines) + rest == line + [LF] + after;
      ScanOne(line, after);
      EscapedReadsBack(lines[0]);
      WalkOne(DropCR(line), Lines(after), true, current);
      var next := current + DropCR(lines[0]) + [LF];
      WalkBody(lines[1..], next, rest);
      assert next + Joined(lines[1..]) == current + Joined(lines);
    }
  }

  function Joined(lines: seq<bytes>): bytes {
    if lines == [] then [] else DropCR(lines[0]) + [LF] + Joined(lines[1..])
  }

  lemma {:induction false} JoinedIsMessage(content: bytes)
    ensures Joined(Lines(content)) == Message(content)
    decreases |content|
  {
    if content != [] {
      JoinedIsMessage(Rest(content));
      assert Lines(content)[1..] == Lines(Rest(content));
    }
  }

  /** One entry: the envelope flushes what came before, the blank line is trimmed off. */
  lemma WalkEntry(envelope: bytes, content: bytes, rest: bytes, started: bool, current: bytes)
    requires LF !in envelope
    ensures Walk(Lines(Entry(envelope, content) + rest), started, current) ==
            Flushed(started, current) + Walk(Lines(rest), true, Message(content) + [LF])
  {
    hide Walk, Lines, Escape, Unescape, Body, Joined, Message;
    var lines := Lines(content);
    LinesHaveNoLF(content);
    JoinedIsMessage(content);
    var tail := Body(lines) + ([LF] + rest);
    EntryStarts(envelope, content, rest);
    ScanOne(FROM + envelope, tail);
    var first := DropCR(FROM + envelope);
    assert HasPrefix(first, FROM);
    WalkOne(first, Lines(tail), started, current);
    WalkBody(lines, [], [LF] + rest);
    assert [] + Joined(lines) == Joined(lines);
    assert [LF] + rest == [] + [LF] + rest;
    ScanOne([], rest);
    WalkOne([], Lines(rest), true, Message(content));
    BlankLine(Message(content));
  }

  lemma EntryStarts(envelope: bytes, content: bytes, rest: bytes)
    ensures Entry(envelope, content) + rest == (FROM + envelope) + [LF] + (Body(Lines(content)) + ([LF] + rest))
  {
    hide Body, Lines;
  }

  lemma BlankLine(message: bytes)
    ensures DropCR([]) == [] && !HasPrefix([], FROM) && message + Unescape([]) + [LF] == message + [LF]
  {
  }

  function Messages(entries: seq<(bytes, bytes)>): seq<bytes> {
    seq(|entries|, i requires 0 <= i < |entries| => Message(entries[i].1))
  }

  lemma {:induction false} WalkStream(entries: seq<(bytes, bytes)>, started: bool, current: bytes)
    requires forall i :: 0 <= i < |entries| ==> LF !in entries[i].0
    ensures Walk(Lines(Stream(entries)), started, current) == Flushed(started, current) + Messages(entries)
    decreases |entries|
  {
    if entries == [] {
      assert Messages(entries) == [];
    } else {
      var (envelope, content) := entries[0];
      hide Walk, Lines, Message, Entry, TrimLF;
      WalkEntry(envelope, content, Stream(entries[1..]), started, current);
      WalkStream(entries[1..], true, Message(content) + [LF]);
      TrimBlank(Message(content));
      MessagesStep(entries);
    }
  }

  lemma TrimBlank(message: bytes)
    ensures TrimLF(message + [LF]) == message
  {
  }

  lemma MessagesStep(entries: seq<(bytes, bytes)>)
    requires entries != []
    ensures Messages(entries) == [Message(entries[0].1)] + Messages(entries[1..])
  {
    hide Message;
  }

  /** Importing an export yields one message per entry, in order, whatever the contents:
      no content can forge a separator, and none can swallow the next entry. */
  lemma RoundTrip(entries: seq<(bytes, bytes)>)
    requires forall i :: 0 <= i < |entries| ==> LF !in entries[i].0
    ensures Parsed(Stream(entries)) == Messages(entries)
  {
    WalkStream(entries, false, []);
    assert [] + Messages(entries) == Messages(entries);
  }

  predicate CleanLineEnds(content: bytes) {
    forall i :: 0 < i < |content| && content[i] == LF ==> content[i - 1] != CR
  }

  /** The comment above the printer promises the original byte for byte. That holds exactly
      when no line ends in CR LF and the last line is terminated. */
  lemma {:induction false} ByteForByteIff(content: bytes)
    ensures Message(content) == content <==>
            CleanLineEnds(content) && (content == [] || content[|content| - 1] == LF)
    decreases |content|
  {
    if content != [] {
      var k := LineEnd(content);
      var line, rest := content[..k], Rest(content);
      ByteForByteIff(rest);
      MessageStep(content);
      hide Message, LineEnd, Rest, CleanLineEnds;
      if k == |content| {
        assert Message(content)[|Message(content)| - 1] == LF;
      } else if line != [] && line[k - 1] == CR {
        DirtyLine(content, k);
      } else {
        assert DropCR(DropCR(line)) == line;
        CleanSplits(line, rest);
        SamePrefix(line + [LF], Message(rest), rest);
      }
    }
  }

  lemma MessageStep(content: bytes)
    requires content != []
    ensures var k := LineEnd(content); var line, rest := content[..k], Rest(content);
            && |rest| < |content| && LF !in line
            && Message(content) == DropCR(DropCR(line)) + [LF] + Message(rest)
            && (if k < |content| then content == line + [LF] + rest else rest == [] && content == line)
  {
    hide *;
    MessageUnfolds(content);
    LineSplits(content);
  }

  lemma LineSplits(content: bytes)
    requires content != []
    ensures var k := LineEnd(content); var line, rest := content[..k], Rest(content);
            && |rest| < |content| && LF !in line
            && (if k < |content| then content == line + [LF] + rest else rest == [] && content == line)
  {
    hide LineEnd;
    var k := LineEnd(content);
    if k < |content| {
      assert content[k] == LF && content == content[..k] + [content[k]] + content[k + 1..];
    }
  }

  lemma MessageUnfolds(content: bytes)
    requires content != []
    ensures Message(content) == DropCR(DropCR(content[..LineEnd(content)])) + [LF] + Message(Rest(content))
  {
    hide LineEnd, DropCR, Rest;
  }

  lemma SamePrefix(head: bytes, a: bytes, b: bytes)
    ensures head + a == head + b <==> a == b
  {
    if head + a == head + b {
      assert (head + a)[|head|..] == a && (head + b)[|head|..] == b;
    }
  }

  /** A first line ending in CR LF comes back shorter. */
  lemma DirtyLine(content: bytes, k: nat)
    requires k == LineEnd(content) && 0 < k < |content| && content[k - 1] == CR
    ensures Message(content) != content && !CleanLineEnds(content)
  {
    MessageStep(content);
    var kept := DropCR(DropCR(content[..k]));
    hide Message;
    assert Message(content)[|kept|] == LF && content[|kept|] != LF;
    assert content[k] == LF;
  }

  lemma CleanSplits(line: bytes, rest: bytes)
    requires LF !in line && (line == [] || line[|line| - 1] != CR)
    ensures CleanLineEnds(line + [LF] + rest) <==> CleanLineEnds(rest)
  {
    var content, n := line + [LF] + rest, |line| + 1;
    assert forall i :: 0 <= i < |rest| ==> content[n + i] == rest[i];
    if CleanLineEnds(content) {
      forall i | 0 < i < |rest| && rest[i] == LF ensures rest[i - 1] != CR {
        assert content[n + i] == LF && content[n + i - 1] == rest[i - 1];
      }
    }
    if CleanLineEnds(rest) {
      forall i | 0 < i < |content| && content[i] == LF ensures content[i - 1] != CR {
        if i > n {
          assert rest[i - n] == LF && content[i - 1] == rest[i - n - 1];
        }
      }
    }
  }

  // ---------------------------------------------------------------- the two programs

  lemma NothingLeft(started: bool, current: bytes)
    ensures Lines([]) == [] && Body([]) == [] && Walk([], started, current) == Flushed(started, current)
  {
  }

  /** `writeMboxEntry`. */
  method WriteMboxEntry(envelope: bytes, content: bytes) returns (w: bytes)
    ensures w == Entry(envelope, content)
  {
    NothingLeft(false, []);
    hide Lines, LineEnd, Rest, Body, DropCR;
    w := FROM + envelope + [LF];
    ghost var head := w;
    var unread := content;
    ghost var read: seq<bytes> := [];
    while unread != []
      invariant read + Lines(unread) == Lines(content)
      invariant w == head + Body(read)
      decreases |unread|
    {
      var line := DropCR(unread[..LineEnd(unread)]);
      LinesStep(unread);
      BodyThen(read, line);
      if FromPattern(line) {
        w := w + [GT];
      }
      w := w + line;
      w := w + [LF];
      read := read + [line];
      unread := Rest(unread);
    }
    assert read == Lines(content);
    w := w + [LF];
  }

  lemma {:induction false} BodyThen(lines: seq<bytes>, line: bytes)
    ensures Body(lines + [line]) == Body(lines) + Escape(line) + [LF]
    decreases |lines|
  {
    if lines == [] {
      assert [line][1..] == [];
    } else {
      assert (lines + [line])[0] == lines[0] && (lines + [line])[1..] == lines[1..] + [line];
      BodyThen(lines[1..], line);
    }
  }

  /** `WalkMbox` with a callback that fails on the messages `fails` names: it is called on
      the messages of the file in order, and not again after its first failure. */
  method WalkMbox(data: bytes, fails: set<nat>) returns (called: seq<bytes>, ok: bool)
    ensures called <= Parsed(data)
    ensures forall i :: 0 <= i < |called| - 1 ==> i !in fails
    ensures ok <==> called == Parsed(data) && (called == [] || |called| - 1 !in fails)
    ensures !ok ==> called != [] && |called| - 1 in fails
  {
    hide Lines, LineEnd, Rest, Walk, DropCR, Unescape, HasPrefix, TrimLF;
    var current, started, unread := [], false, data;
    called := [];
    while unread != []
      invariant called + Walk(Lines(unread), started, current) == Parsed(data)
      invariant forall i :: 0 <= i < |called| ==> i !in fails
      decreases |unread|
    {
      var line := DropCR(unread[..LineEnd(unread)]);
      LinesStep(unread);
      WalkOne(line, Lines(Rest(unread)), started, current);
      if HasPrefix(line, FROM) {
        if started {
          called := called + [TrimLF(current)];
          if |called| - 1 in fails { return called, false; }
        }
        started, current := true, [];
      } else if started {
        current := current + Unescape(line) + [LF];
      }
      unread := Rest(unread);
    }
    NothingLeft(started, current);
    if started {
      called := called + [TrimLF(current)];
    }
    ok := called == [] || |called| - 1 !in fails;
  }
}
