/** Newline framing of the socket between client and daemon. */
module Framing {
  import opened Bytes

  const NEW_LINE: Byte := 10

  /** The characters `QByteArray::trimmed` strips. */
  predicate IsSpace(b: Byte) {
    9 <= b <= 13 || b == 32
  }

  function TrimLeft(s: seq<Byte>): seq<Byte> {
    if s != [] && IsSpace(s[0]) then TrimLeft(s[1..]) else s
  }

  function TrimRight(s: seq<Byte>): seq<Byte> {
    if s != [] && IsSpace(s[|s| - 1]) then TrimRight(s[..|s| - 1]) else s
  }

  function Trim(s: seq<Byte>): seq<Byte> {
    TrimRight(TrimLeft(s))
  }

  predicate Blank(s: seq<Byte>) {
    forall i :: 0 <= i < |s| ==> IsSpace(s[i])
  }

  /** The commands in one line: the trimmed line, or none if it is blank. */
  function LineCommands(line: seq<Byte>): seq<seq<Byte>> {
    if Trim(line) == [] then [] else [Trim(line)]
  }

  /** What a reader that started on the given line has seen after the bytes of `s`: the commands of
      the complete lines, and the unfinished last line. It looks at one byte at a time. */
  datatype Scan = Scan(commands: seq<seq<Byte>>, tail: seq<Byte>)

  function Feed(state: Scan, b: Byte): Scan {
    if b == NEW_LINE then Scan(state.commands + LineCommands(state.tail), [])
    else Scan(state.commands, state.tail + [b])
  }

  function FeedAll(state: Scan, s: seq<Byte>): Scan {
    if s == [] then state else Feed(FeedAll(state, s[..|s| - 1]), s[|s| - 1])
  }

  /** The commands and the unfinished tail of a byte stream. */
  function ScanOf(stream: seq<Byte>): Scan {
    FeedAll(Scan([], []), stream)
  }

  lemma {:induction false} FeedAllJoins(state: Scan, s: seq<Byte>, t: seq<Byte>)
    ensures FeedAll(state, s + t) == FeedAll(FeedAll(state, s), t)
  {
    if t == [] {
      assert s + t == s;
    } else {
      var u := s + t;
      assert u[..|u| - 1] == s + t[..|t| - 1] && u[|u| - 1] == t[|t| - 1];
      FeedAllJoins(state, s, t[..|t| - 1]);
    }
  }

  /** Bytes without a newline only lengthen the tail. */
  lemma {:induction false} FeedWithoutNewLine(state: Scan, s: seq<Byte>)
    requires NEW_LINE !in s
    ensures FeedAll(state, s) == Scan(state.commands, state.tail + s)
  {
    if s == [] {
      assert state.tail + s == state.tail;
    } else {
      FeedWithoutNewLine(state, s[..|s| - 1]);
      assert state.tail + s == state.tail + s[..|s| - 1] + [s[|s| - 1]];
    }
  }

  /** Reading on from a line and then a newline. */
  lemma FeedLine(commands: seq<seq<Byte>>, line: seq<Byte>, rest: seq<Byte>)
    requires NEW_LINE !in line
    ensures FeedAll(Scan(commands, []), line + [NEW_LINE] + rest)
         == FeedAll(Scan(commands + LineCommands(line), []), rest)
  {
    FeedAllJoins(Scan(commands, []), line + [NEW_LINE], rest);
    FeedAllJoins(Scan(commands, []), line, [NEW_LINE]);
    FeedWithoutNewLine(Scan(commands, []), line);
    assert [] + line == line;
    assert [NEW_LINE][..0] == [];
    assert FeedAll(Scan(commands, line), [NEW_LINE]) == Feed(Scan(commands, line), NEW_LINE);
  }

  /** Bytes kept in a buffer without a newline are as good as bytes not read yet. */
  lemma Refeed(commands: seq<seq<Byte>>, buffer: seq<Byte>, input: seq<Byte>)
    requires NEW_LINE !in buffer
    ensures FeedAll(Scan(commands, []), buffer + input) == FeedAll(Scan(commands, buffer), input)
    ensures FeedAll(Scan(commands, []), buffer) == Scan(commands, buffer)
  {
    FeedAllJoins(Scan(commands, []), buffer, input);
    FeedWithoutNewLine(Scan(commands, []), buffer);
    assert [] + buffer == buffer;
  }

  /** Taking the first line off the buffer. */
  lemma TakeLine(commands: seq<seq<Byte>>, buffer: seq<Byte>, pos: nat)
    requires pos < |buffer| && buffer[pos] == NEW_LINE && NEW_LINE !in buffer[..pos]
    ensures FeedAll(Scan(commands, []), buffer)
         == FeedAll(Scan(commands + LineCommands(buffer[..pos]), []), buffer[pos + 1..])
  {
    CutAt(buffer, pos);
    FeedLine(commands, buffer[..pos], buffer[pos + 1..]);
  }

  lemma CutAt(buffer: seq<Byte>, pos: nat)
    requires pos < |buffer|
    ensures buffer == buffer[..pos] + [buffer[pos]] + buffer[pos + 1..]
  {
  }

  /** Appending the next chunk to the buffer. */
  lemma TakeChunk(state: Scan, buffer: seq<Byte>, chunks: seq<seq<Byte>>, next: nat)
    requires next < |chunks|
    ensures FeedAll(FeedAll(state, buffer), Concat(chunks[next..]))
         == FeedAll(FeedAll(state, buffer + chunks[next]), Concat(chunks[next + 1..]))
  {
    assert chunks[next..][1..] == chunks[next + 1..];
    FeedAllJoins(FeedAll(state, buffer), chunks[next], Concat(chunks[next + 1..]));
    FeedAllJoins(state, buffer, chunks[next]);
  }

  /** `indexOf("\n")`. */
  method IndexOfNewLine(s: seq<Byte>) returns (pos: int)
    ensures pos == -1 ==> NEW_LINE !in s
    ensures pos != -1 ==> 0 <= pos < |s| && s[pos] == NEW_LINE && NEW_LINE !in s[..pos]
  {
    for i := 0 to |s|
      invariant NEW_LINE !in s[..i]
    {
      if s[i] == NEW_LINE {
        return i;
      }
    }
    return -1;
  }

  /** `LocalSocketController::readData` and its buffer; `delivered` are the commands it passed on. */
  class ClientReader {
    var buffer: seq<Byte>
    var delivered: seq<seq<Byte>>

    ghost function State(): Scan reads this {
      Scan(delivered, buffer)
    }

    constructor ()
      ensures State() == ScanOf([])
    {
      buffer, delivered := [], [];
    }

    method ReadData(input: seq<Byte>)
      requires NEW_LINE !in buffer
      modifies this
      ensures NEW_LINE !in buffer
      ensures State() == old(FeedAll(State(), input))
    {
      ghost var goal := FeedAll(State(), input);
      Refeed(delivered, buffer, input);
      buffer := buffer + input;
      while true
        invariant FeedAll(Scan(delivered, []), buffer) == goal
        decreases |buffer|
      {
        var pos := IndexOfNewLine(buffer);
        if pos == -1 {
          break;
        }
        var line := buffer[..pos];
        TakeLine(delivered, buffer, pos);
        buffer := buffer[pos + 1..];
        var command := Trim(line);
        if command == [] {
          assert delivered + [] == delivered;
          continue;
        }
        delivered := delivered + [command];
      }
      Refeed(delivered, buffer, []);
    }

    /** Any sequence of reads on one connection. */
    method ReadAll(inputs: seq<seq<Byte>>)
      requires NEW_LINE !in buffer
      modifies this
      ensures NEW_LINE !in buffer
      ensures State() == old(FeedAll(State(), Concat(inputs)))
    {
      assert inputs[0..] == inputs;
      for i := 0 to |inputs|
        invariant NEW_LINE !in buffer
        invariant FeedAll(State(), Concat(inputs[i..])) == old(FeedAll(State(), Concat(inputs)))
      {
        assert inputs[i..][1..] == inputs[i + 1..];
        FeedAllJoins(State(), inputs[i], Concat(inputs[i + 1..]));
        ReadData(inputs[i]);
      }
    }
  }

  /** `DaemonLocalServerConnection::readData`: it asks the socket for more until there is none.
      `chunks` are what the successive `readAll` calls return before one returns nothing. */
  class DaemonReader {
    var buffer: seq<Byte>
    var delivered: seq<seq<Byte>>

    ghost function State(): Scan reads this {
      Scan(delivered, buffer)
    }

    constructor ()
      ensures State() == ScanOf([])
    {
      buffer, delivered := [], [];
    }

    /** One `readyRead` notification. */
    method ReadData(chunks: seq<seq<Byte>>)
      requires NEW_LINE !in buffer
      requires [] !in chunks
      modifies this
      ensures NEW_LINE !in buffer
      ensures State() == old(FeedAll(State(), Concat(chunks)))
    {
      ghost var goal := FeedAll(State(), Concat(chunks));
      var next := 0;
      Refeed(delivered, buffer, []);
      assert chunks[0..] == chunks;
      while true
        invariant 0 <= next <= |chunks|
        invariant FeedAll(FeedAll(Scan(delivered, []), buffer), Concat(chunks[next..])) == goal
        decreases |chunks| - next, |buffer|
      {
        var pos := IndexOfNewLine(buffer);
        if pos == -1 {
          var input := if next < |chunks| then chunks[next] else [];
          if input == [] {
            break;
          }
          TakeChunk(Scan(delivered, []), buffer, chunks, next);
          buffer := buffer + input;
          next := next + 1;
          continue;
        }
        var line := buffer[..pos];
        TakeLine(delivered, buffer, pos);
        buffer := buffer[pos + 1..];
        var command := Trim(line);
        if command == [] {
          assert delivered + [] == delivered;
          continue;
        }
        delivered := delivered + [command];
      }
      Refeed(delivered, buffer, []);
    }

    /** Any sequence of notifications on one connection. */
    method ReadAll(notifications: seq<seq<seq<Byte>>>)
      requires NEW_LINE !in buffer
      requires forall n :: n in notifications ==> [] !in n
      modifies this
      ensures NEW_LINE !in buffer
      ensures State() == old(FeedAll(State(), Concat(Concat(notifications))))
    {
      assert notifications[0..] == notifications;
      for i := 0 to |notifications|
        invariant NEW_LINE !in buffer
        invariant FeedAll(State(), Concat(Concat(notifications[i..]))) == old(FeedAll(State(), Concat(Concat(notifications))))
      {
        assert notifications[i..][1..] == notifications[i + 1..];
        ConcatJoins(notifications[i], Concat(notifications[i + 1..]));
        FeedAllJoins(State(), Concat(notifications[i]), Concat(Concat(notifications[i + 1..])));
        ReadData(notifications[i]);
      }
    }
  }

  /** The stream as lines, each ended by a newline, and an unfinished tail. */
  ghost predicate Splits(stream: seq<Byte>, lines: seq<seq<Byte>>, tail: seq<Byte>) {
    && stream == Joined(lines) + tail
    && NEW_LINE !in tail
    && forall i :: 0 <= i < |lines| ==> NEW_LINE !in lines[i]
  }

  function Joined(lines: seq<seq<Byte>>): seq<Byte> {
    if lines == [] then [] else lines[0] + [NEW_LINE] + Joined(lines[1..])
  }

  /** The trimmed lines that are not blank, in order. */
  function Commands(lines: seq<seq<Byte>>): seq<seq<Byte>> {
    if lines == [] then [] else LineCommands(lines[0]) + Commands(lines[1..])
  }

  lemma {:induction false} ScanOfLines(before: seq<seq<Byte>>, lines: seq<seq<Byte>>, tail: seq<Byte>)
    requires NEW_LINE !in tail && forall i :: 0 <= i < |lines| ==> NEW_LINE !in lines[i]
    ensures FeedAll(Scan(before, []), Joined(lines) + tail) == Scan(before + Commands(lines), tail)
    decreases |lines|
  {
    if lines == [] {
      assert Joined(lines) + tail == tail && before + Commands(lines) == before;
      Refeed(before, tail, []);
    } else {
      var rest := Joined(lines[1..]) + tail;
      assert Joined(lines) + tail == lines[0] + [NEW_LINE] + rest;
      FeedLine(before, lines[0], rest);
      ScanOfLines(before + LineCommands(lines[0]), lines[1..], tail);
      assert before + LineCommands(lines[0]) + Commands(lines[1..]) == before + Commands(lines);
    }
  }

  /** However a stream is cut into lines and a tail, the reader finds exactly the trimmed non-blank
      lines, in order, and keeps the tail. */
  lemma ReaderFindsTheLines(stream: seq<Byte>, lines: seq<seq<Byte>>, tail: seq<Byte>)
    requires Splits(stream, lines, tail)
    ensures ScanOf(stream) == Scan(Commands(lines), tail)
  {
    ScanOfLines([], lines, tail);
    assert [] + Commands(lines) == Commands(lines);
  }

  /** Every stream can be cut that way. */
  lemma {:induction false} EveryStreamSplits(stream: seq<Byte>) returns (lines: seq<seq<Byte>>, tail: seq<Byte>)
    ensures Splits(stream, lines, tail)
  {
    if NEW_LINE in stream {
      var pos :| 0 <= pos < |stream| && stream[pos] == NEW_LINE && NEW_LINE !in stream[..pos] by {
        FirstNewLine(stream);
      }
      var more, t := EveryStreamSplits(stream[pos + 1..]);
      lines, tail := [stream[..pos]] + more, t;
      assert lines[1..] == more;
      assert stream == stream[..pos] + [NEW_LINE] + stream[pos + 1..];
    } else {
      lines, tail := [], stream;
    }
  }

  lemma {:induction false} FirstNewLine(stream: seq<Byte>)
    requires NEW_LINE in stream
    ensures exists pos :: 0 <= pos < |stream| && stream[pos] == NEW_LINE && NEW_LINE !in stream[..pos]
  {
    if stream[0] == NEW_LINE {
      assert NEW_LINE !in stream[..0];
    } else {
      FirstNewLine(stream[1..]);
      var pos :| 0 <= pos < |stream[1..]| && stream[1..][pos] == NEW_LINE && NEW_LINE !in stream[1..][..pos];
      assert stream[..pos + 1] == [stream[0]] + stream[1..][..pos];
      assert stream[pos + 1] == NEW_LINE;
    }
  }

  lemma {:induction false} JoinedAppend(lines: seq<seq<Byte>>, line: seq<Byte>)
    ensures Joined(lines + [line]) == Joined(lines) + line + [NEW_LINE]
  {
    if lines == [] {
      assert lines + [line] == [line] && [line][1..] == [];
    } else {
      assert (lines + [line])[1..] == lines[1..] + [line];
      JoinedAppend(lines[1..], line);
    }
  }

  /** The sending end of the socket: `write` puts the message and then a newline on it. */
  class Sender {
    var sent: seq<Byte>

    constructor ()
      ensures sent == []
    {
      sent := [];
    }

    method Write(message: seq<Byte>)
      modifies this
      ensures sent == old(sent) + message + [NEW_LINE]
    {
      sent := sent + message;
      sent := sent + [NEW_LINE];
    }

    method WriteAll(messages: seq<seq<Byte>>)
      modifies this
      ensures sent == old(sent) + Joined(messages)
    {
      for i := 0 to |messages|
        invariant sent == old(sent) + Joined(messages[..i])
      {
        JoinedAppend(messages[..i], messages[i]);
        assert messages[..i] + [messages[i]] == messages[..i + 1];
        Write(messages[i]);
      }
      assert messages[..|messages|] == messages;
    }
  }

  /** A message as compact JSON writes it: no newline, and no space at either end. */
  ghost predicate WellFramed(message: seq<Byte>) {
    && message != [] && NEW_LINE !in message
    && !IsSpace(message[0]) && !IsSpace(message[|message| - 1])
  }

  lemma FramedLineIsItself(message: seq<Byte>)
    requires WellFramed(message)
    ensures LineCommands(message) == [message]
  {
  }

  lemma {:induction false} CommandsOfMessages(messages: seq<seq<Byte>>)
    requires forall i :: 0 <= i < |messages| ==> WellFramed(messages[i])
    ensures Commands(messages) == messages
  {
    if messages == [] {
    } else {
      FramedLineIsItself(messages[0]);
      CommandsOfMessages(messages[1..]);
    }
  }

  /** Every sequence of messages is recovered exactly from what `write` puts on the socket. */
  lemma MessagesAreRecovered(messages: seq<seq<Byte>>)
    requires forall i :: 0 <= i < |messages| ==> WellFramed(messages[i])
    ensures ScanOf(Joined(messages)) == Scan(messages, [])
  {
    CommandsOfMessages(messages);
    assert Joined(messages) == Joined(messages) + [];
    ReaderFindsTheLines(Joined(messages), messages, []);
  }

  lemma {:induction false} FeedOnlyAppends(state: Scan, s: seq<Byte>)
    ensures state.commands <= FeedAll(state, s).commands
  {
    if s == [] {
    } else {
      FeedOnlyAppends(state, s[..|s| - 1]);
    }
  }

  /** At any point of the transfer, what was delivered is a prefix of what was sent. */
  lemma NothingIsDeliveredEarly(messages: seq<seq<Byte>>, arrived: seq<Byte>, missing: seq<Byte>)
    requires forall i :: 0 <= i < |messages| ==> WellFramed(messages[i])
    requires arrived + missing == Joined(messages)
    ensures ScanOf(arrived).commands <= messages
  {
    MessagesAreRecovered(messages);
    FeedAllJoins(Scan([], []), arrived, missing);
    FeedOnlyAppends(ScanOf(arrived), missing);
  }

  lemma {:induction false} BlankTrimsAway(s: seq<Byte>, t: seq<Byte>)
    requires Blank(s)
    ensures TrimLeft(s + t) == TrimLeft(t)
  {
    if s == [] {
      assert s + t == t;
    } else {
      assert (s + t)[1..] == s[1..] + t;
      BlankTrimsAway(s[1..], t);
    }
  }

  lemma {:induction false} TrimRightEmpty(s: seq<Byte>)
    ensures TrimRight(s) == [] <==> Blank(s)
  {
    if s != [] && IsSpace(s[|s| - 1]) {
      TrimRightEmpty(s[..|s| - 1]);
    }
  }

  lemma {:induction false} TrimLeftSplits(s: seq<Byte>) returns (spaces: seq<Byte>)
    ensures s == spaces + TrimLeft(s) && Blank(spaces)
  {
    if s != [] && IsSpace(s[0]) {
      var more := TrimLeftSplits(s[1..]);
      spaces := [s[0]] + more;
    } else {
      spaces := [];
    }
  }

  lemma TrimEmptyWhenBlank(s: seq<Byte>)
    ensures Trim(s) == [] <==> Blank(s)
  {
    TrimRightEmpty(TrimLeft(s));
    var spaces := TrimLeftSplits(s);
    if Blank(TrimLeft(s)) {
      forall i | 0 <= i < |s|
        ensures IsSpace(s[i])
      {
      }
    }
    if Blank(s) {
      assert s + [] == s;
      BlankTrimsAway(s, []);
    }
  }

  /** What `trimmed` strips: tab, line feed, vertical tab, form feed, carriage return and space. */
  lemma SpacesAre(b: Byte)
    ensures IsSpace(b) <==> b in {9, 10, 11, 12, 13, 32}
  {
  }

  /** Nothing, or bytes that neither start nor end with a space. */
  predicate Tight(s: seq<Byte>) {
    s != [] ==> !IsSpace(s[0]) && !IsSpace(s[|s| - 1])
  }

  lemma {:induction false} TrimRightOf(s: seq<Byte>, t: seq<Byte>)
    requires Blank(t) && (s != [] ==> !IsSpace(s[|s| - 1]))
    ensures TrimRight(s + t) == s
    decreases |t|
  {
    if t == [] {
      assert s + t == s;
    } else {
      var u := s + t;
      assert u[|u| - 1] == t[|t| - 1] && u[..|u| - 1] == s + t[..|t| - 1];
      TrimRightOf(s, t[..|t| - 1]);
    }
  }

  /** Trimming takes exactly the spaces around a tight stretch. */
  lemma TrimIsTheMiddle(left: seq<Byte>, middle: seq<Byte>, right: seq<Byte>)
    requires Blank(left) && Blank(right) && Tight(middle)
    ensures Trim(left + middle + right) == middle
  {
    assert left + middle + right == left + (middle + right);
    BlankTrimsAway(left, middle + right);
    if middle == [] {
      assert middle + right == right && right + [] == right;
      BlankTrimsAway(right, []);
    } else {
      assert (middle + right)[0] == middle[0];
      TrimRightOf(middle, right);
    }
  }

  lemma {:induction false} TrimRightSplits(s: seq<Byte>) returns (spaces: seq<Byte>)
    ensures s == TrimRight(s) + spaces && Blank(spaces)
    ensures TrimRight(s) != [] ==> !IsSpace(TrimRight(s)[|TrimRight(s)| - 1])
  {
    if s != [] && IsSpace(s[|s| - 1]) {
      var more := TrimRightSplits(s[..|s| - 1]);
      spaces := more + [s[|s| - 1]];
    } else {
      spaces := [];
    }
  }

  /** Every line is such a stretch with spaces around it. */
  lemma EveryLineHasAMiddle(s: seq<Byte>) returns (left: seq<Byte>, right: seq<Byte>)
    ensures s == left + Trim(s) + right && Blank(left) && Blank(right) && Tight(Trim(s))
  {
    left := TrimLeftSplits(s);
    TrimLeftStarts(s);
    right := TrimRightSplits(TrimLeft(s));
    assert Trim(s) != [] ==> Trim(s)[0] == TrimLeft(s)[0];
  }

  lemma {:induction false} TrimLeftStarts(s: seq<Byte>)
    ensures TrimLeft(s) != [] ==> !IsSpace(TrimLeft(s)[0])
  {
    if s != [] && IsSpace(s[0]) {
      TrimLeftStarts(s[1..]);
    }
  }

  /** The client keeps its buffer across connections. A new connection's commands are read as they
      were sent, whatever they are, if and only if the last connection broke off in a blank line. */
  lemma LeftoverIsHarmlessExactlyWhenBlank(tail: seq<Byte>)
    requires NEW_LINE !in tail
    ensures (forall stream :: FeedAll(Scan([], tail), stream).commands == ScanOf(stream).commands) <==> Blank(tail)
  {
    if Blank(tail) {
      forall stream: seq<Byte>
        ensures FeedAll(Scan([], tail), stream).commands == ScanOf(stream).commands
      {
        var lines, rest := EveryStreamSplits(stream);
        BlankLeftover(tail, lines, rest);
      }
    } else {
      TrimEmptyWhenBlank(tail);
      LeftoverCorrupts(tail);
    }
  }

  lemma BlankBeforeLine(tail: seq<Byte>, line: seq<Byte>, more: seq<Byte>)
    requires Blank(tail) && NEW_LINE !in tail && NEW_LINE !in line
    ensures FeedAll(Scan([], tail), line + [NEW_LINE] + more) == ScanOf(line + [NEW_LINE] + more)
  {
    Refeed([], tail, line + [NEW_LINE] + more);
    assert tail + (line + [NEW_LINE] + more) == (tail + line) + [NEW_LINE] + more;
    FeedLine([], tail + line, more);
    FeedLine([], line, more);
    BlankTrimsAway(tail, line);
  }

  lemma BlankLeftover(tail: seq<Byte>, lines: seq<seq<Byte>>, rest: seq<Byte>)
    requires Blank(tail) && NEW_LINE !in tail && NEW_LINE !in rest
    requires forall i :: 0 <= i < |lines| ==> NEW_LINE !in lines[i]
    ensures FeedAll(Scan([], tail), Joined(lines) + rest).commands == ScanOf(Joined(lines) + rest).commands
  {
    if lines == [] {
      assert Joined(lines) + rest == rest;
      FeedWithoutNewLine(Scan([], tail), rest);
      FeedWithoutNewLine(Scan([], []), rest);
    } else {
      var more := Joined(lines[1..]) + rest;
      assert Joined(lines) + rest == lines[0] + [NEW_LINE] + more;
      BlankBeforeLine(tail, lines[0], more);
    }
  }

  /** A leftover that is not blank is delivered as a command of the new connection. */
  lemma LeftoverCorrupts(tail: seq<Byte>)
    requires NEW_LINE !in tail && Trim(tail) != []
    ensures FeedAll(Scan([], tail), [NEW_LINE]).commands == [Trim(tail)]
    ensures ScanOf([NEW_LINE]).commands == []
  {
    assert [NEW_LINE][..0] == [];
    assert FeedAll(Scan([], tail), [NEW_LINE]) == Feed(Scan([], tail), NEW_LINE);
    assert FeedAll(Scan([], []), [NEW_LINE]) == Feed(Scan([], []), NEW_LINE);
  }

  function Concat<T>(chunks: seq<seq<T>>): seq<T> {
    if chunks == [] then [] else chunks[0] + Concat(chunks[1..])
  }

  lemma {:induction false} ConcatJoins<T>(a: seq<seq<T>>, b: seq<seq<T>>)
    ensures Concat(a + b) == Concat(a) + Concat(b)
  {
    if a == [] {
      assert a + b == b;
    } else {
      assert (a + b)[1..] == a[1..] + b;
      ConcatJoins(a[1..], b);
    }
  }

  /** From the client to the daemon: whatever messages are written, and however the stream is cut
      into notifications and chunks, exactly the messages are delivered. */
  method ClientToDaemon(messages: seq<seq<Byte>>, notifications: seq<seq<seq<Byte>>>) returns (reader: DaemonReader)
    requires forall i :: 0 <= i < |messages| ==> WellFramed(messages[i])
    requires Concat(Concat(notifications)) == Joined(messages)
    requires forall n :: n in notifications ==> [] !in n
    ensures reader.delivered == messages && reader.buffer == []
  {
    var sender := new Sender();
    sender.WriteAll(messages);
    assert sender.sent == Concat(Concat(notifications));
    reader := new DaemonReader();
    reader.ReadAll(notifications);
    MessagesAreRecovered(messages);
  }

  /** From the daemon to the client, likewise. */
  method DaemonToClient(messages: seq<seq<Byte>>, inputs: seq<seq<Byte>>) returns (reader: ClientReader)
    requires forall i :: 0 <= i < |messages| ==> WellFramed(messages[i])
    requires Concat(inputs) == Joined(messages)
    ensures reader.delivered == messages && reader.buffer == []
  {
    var sender := new Sender();
    sender.WriteAll(messages);
    assert sender.sent == Concat(inputs);
    reader := new ClientReader();
    reader.ReadAll(inputs);
    MessagesAreRecovered(messages);
  }
}
