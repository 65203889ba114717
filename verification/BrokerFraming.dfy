/**
 The byte stream of one runtime connection: newline-ended frames, written by
 possibly interrupted calls of `write`, and split back into lines by the peer.
 */
module BrokerFraming {
  import opened Prelude
  import opened BrokerSlot

  const NEWLINE: byte := 10
  const MAX_RUNTIME_FRAME_BYTES: nat := 8 * 1024 * 1024

  /** A marshalled JSON message: it holds no raw newline. */
  type Line = s: seq<byte> | NEWLINE !in s

  function Frame(line: Line): seq<byte> {
    line + [NEWLINE]
  }

  /** A message longer than this is refused before any byte of it is written. */
  predicate Fits(line: Line) {
    |line| + 1 <= MAX_RUNTIME_FRAME_BYTES
  }

  /** One finished call of write: the first `cut` bytes of the frame reached the wire. */
  datatype WriteEvent = WriteEvent(id: RequestId, cancel: bool, line: Line, cut: nat)

  predicate WellFormed(ev: WriteEvent) {
    ev.cut <= |ev.line| + 1 && (ev.cut > 0 ==> Fits(ev.line))
  }

  predicate Complete(ev: WriteEvent) {
    ev.cut == |ev.line| + 1
  }

  /** The write stopped inside its frame, leaving some but not all of it behind. */
  predicate StoppedPartWay(ev: WriteEvent) {
    0 < ev.cut <= |ev.line|
  }

  function EventBytes(ev: WriteEvent): seq<byte> {
    if ev.cut <= |ev.line| then ev.line[..ev.cut] else Frame(ev.line)
  }

  function Bytes(log: seq<WriteEvent>): seq<byte> {
    if log == [] then []
    else Bytes(log[..|log| - 1]) + EventBytes(log[|log| - 1])
  }

  /** The messages whose whole frame was written, in order. */
  function Messages(log: seq<WriteEvent>): seq<Line> {
    if log == [] then []
    else
      var ev := log[|log| - 1];
      Messages(log[..|log| - 1]) + (if Complete(ev) then [ev.line] else [])
  }

  /** What a line scanner makes of the stream: the ended lines and the unended rest. */
  datatype Scan = Scan(lines: seq<Line>, rest: Line)

  function ScanLines(bytes: seq<byte>): Scan {
    if bytes == [] then Scan([], [])
    else
      var before := ScanLines(bytes[..|bytes| - 1]);
      var last := bytes[|bytes| - 1];
      if last == NEWLINE then Scan(before.lines + [before.rest], [])
      else
        assert NEWLINE !in before.rest + [last];
        Scan(before.lines, before.rest + [last])
  }

  lemma BytesAppend(log: seq<WriteEvent>, ev: WriteEvent)
    ensures Bytes(log + [ev]) == Bytes(log) + EventBytes(ev)
  {
    assert (log + [ev])[..|log|] == log;
  }

  /** Scanning a newline-free stretch only lengthens the rest. */
  lemma {:induction false} ScanPlain(bytes: seq<byte>, more: seq<byte>)
    requires NEWLINE !in more
    ensures NEWLINE !in ScanLines(bytes).rest + more
    ensures ScanLines(bytes + more) == Scan(ScanLines(bytes).lines, ScanLines(bytes).rest + more)
  {
    if more == [] {
      assert bytes + more == bytes;
      assert ScanLines(bytes).rest + more == ScanLines(bytes).rest;
    } else {
      var less := more[..|more| - 1];
      ScanPlain(bytes, less);
      assert (bytes + more)[..|bytes + more| - 1] == bytes + less;
      assert ScanLines(bytes).rest + more == (ScanLines(bytes).rest + less) + [more[|more| - 1]];
    }
  }

  /** Scanning one whole frame adds one line: what was left over, then the message. */
  lemma ScanFrame(bytes: seq<byte>, line: Line)
    ensures NEWLINE !in ScanLines(bytes).rest + line
    ensures ScanLines(bytes + Frame(line))
         == Scan(ScanLines(bytes).lines + [ScanLines(bytes).rest + line], [])
  {
    ScanPlain(bytes, line);
    assert (bytes + Frame(line))[..|bytes| + |line|] == bytes + line;
  }

  /** Whole frames scan back into exactly the messages that were sent. */
  lemma {:induction false} WholeFramesScanBack(log: seq<WriteEvent>)
    requires forall ev <- log :: WellFormed(ev) && !StoppedPartWay(ev)
    ensures ScanLines(Bytes(log)) == Scan(Messages(log), [])
  {
    if log != [] {
      var ev := log[|log| - 1];
      var before := log[..|log| - 1];
      WholeFramesScanBack(before);
      assert log == before + [ev];
      if Complete(ev) {
        ScanFrame(Bytes(before), ev.line);
        assert [] + ev.line == ev.line;
        assert EventBytes(ev) == Frame(ev.line);
      } else {
        assert WellFormed(ev) && !StoppedPartWay(ev);
        assert EventBytes(ev) == [];
        assert Bytes(before) + [] == Bytes(before);
      }
    }
  }

  function TotalLength(lines: seq<Line>): nat {
    if lines == [] then 0 else TotalLength(lines[..|lines| - 1]) + |lines[|lines| - 1]|
  }

  lemma {:induction false} ScanKeepsEveryByte(bytes: seq<byte>)
    ensures |bytes| == TotalLength(ScanLines(bytes).lines) + |ScanLines(bytes).lines| + |ScanLines(bytes).rest|
  {
    if bytes != [] {
      var before := bytes[..|bytes| - 1];
      ScanKeepsEveryByte(before);
      if bytes[|bytes| - 1] == NEWLINE {
        var lines := ScanLines(bytes).lines;
        assert lines[..|lines| - 1] == ScanLines(before).lines;
      }
    }
  }

  lemma {:induction false} BytesAtLeastMessages(log: seq<WriteEvent>)
    requires forall ev <- log :: WellFormed(ev)
    ensures |Bytes(log)| >= TotalLength(Messages(log)) + |Messages(log)|
    ensures |Bytes(log)| == TotalLength(Messages(log)) + |Messages(log)|
            ==> forall ev <- log :: !StoppedPartWay(ev)
  {
    if log != [] {
      var ev := log[|log| - 1];
      var before := log[..|log| - 1];
      BytesAtLeastMessages(before);
      assert log == before + [ev];
      var m := Messages(log);
      if Complete(ev) {
        assert m[..|m| - 1] == Messages(before);
      } else {
        assert m == Messages(before);
      }
    }
  }

  /**
   The stream splits back into exactly the messages whose frame was completed, with
   nothing left over, if and only if no write stopped inside its frame.
   */
  lemma FramingExact(log: seq<WriteEvent>)
    requires forall ev <- log :: WellFormed(ev)
    ensures ScanLines(Bytes(log)) == Scan(Messages(log), [])
            <==> forall ev <- log :: !StoppedPartWay(ev)
  {
    if forall ev <- log :: !StoppedPartWay(ev) {
      WholeFramesScanBack(log);
    } else {
      ScanKeepsEveryByte(Bytes(log));
      BytesAtLeastMessages(log);
    }
  }

  /** Every line the peer scans from whole frames respects the frame limit. */
  lemma {:induction false} ScannedLinesFit(log: seq<WriteEvent>)
    requires forall ev <- log :: WellFormed(ev)
    ensures forall line <- Messages(log) :: Fits(line)
  {
    if log != [] {
      var ev := log[|log| - 1];
      var before := log[..|log| - 1];
      assert log == before + [ev];
      ScannedLinesFit(before);
      assert WellFormed(ev);
      forall line | line in Messages(log)
        ensures Fits(line)
      {
        assert line in Messages(before) || (Complete(ev) && line == ev.line);
      }
    }
  }

  /**
   The failing family: a write cut off inside its frame, then any whole frame. The
   peer reads one garbled line instead of the second message.
   */
  lemma PartialWriteGarbles(first: WriteEvent, second: WriteEvent)
    requires WellFormed(first) && StoppedPartWay(first)
    requires WellFormed(second) && Complete(second)
    ensures ScanLines(Bytes([first, second])).lines == [first.line[..first.cut] + second.line]
    ensures Messages([first, second]) == [second.line]
    ensures first.line[..first.cut] + second.line != second.line
  {
    var cut := EventBytes(first);
    assert cut == first.line[..first.cut];
    assert NEWLINE !in cut;
    assert Bytes([first]) == cut by {
      assert [first][..0] == [];
      assert [] + cut == cut;
    }
    assert [first, second] == [first] + [second];
    BytesAppend([first], second);
    ScanPlain([], cut);
    assert [] + cut == cut;
    ScanFrame(cut, second.line);
    assert EventBytes(second) == Frame(second.line);
    assert [first, second][..1] == [first];
    assert Messages([first]) == [] + [] by { assert [first][..0] == []; }
  }
}
