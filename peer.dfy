/** One end of the chat connection. The TLS stream is reduced to whether its
    socket is open; the bytes the stream delivers to a pending read are a
    sequence of arrivals; what is written to the stream and what is printed on
    the console are ghost logs. Every char stands for one byte of a
    std::string, so lengths and offsets count bytes as the source does; text
    outside ASCII is taken as its UTF-8 bytes. */
module PeerConnection {

  /** The wire form of one chat line: the sender's name, ": ", the text, '\n'. */
  function Frame(name: string, message: string): (f: string)
    ensures |f| == |name| + |message| + 3 && f[..|name|] == name && f[|f| - 1] == '\n'
    ensures '\n' !in name && '\n' !in message ==> '\n' !in f[..|f| - 1]
  {
    var text := name + ": " + message;
    assert '\n' !in name && '\n' !in message ==> '\n' !in text by {
      assert text == name + ([':', ' '] + message);
    }
    assert (text + "\n")[..|text|] == text;
    text + "\n"
  }

  /** What async_read_until reports on success: the offset just past the first
      '\n' of the buffer. */
  function LineLength(buf: string): (n: nat)
    requires '\n' in buf
    ensures 0 < n <= |buf| && buf[n - 1] == '\n'
    ensures '\n' !in buf[..n - 1]
  {
    if buf[0] == '\n' then 1
    else
      assert '\n' in buf[1..] by {
        var k :| 0 <= k < |buf| && buf[k] == '\n';
        assert buf[1..][k - 1] == '\n';
      }
      var m := LineLength(buf[1..]);
      assert buf[..m] == [buf[0]] + buf[1..][..m - 1];
      1 + m
  }

  /** The line std::getline extracts: everything before the first '\n'. */
  function Line(buf: string): (line: string)
    requires '\n' in buf
    ensures '\n' !in line && |line| < |buf|
    ensures buf[..|line| + 1] == line + "\n"
  {
    buf[..LineLength(buf) - 1]
  }

  /** streambuf::consume(n): removes n bytes from the front, or all of them
      when fewer are there. */
  function Consume(buf: string, n: nat): (r: string)
    ensures |r| == if n >= |buf| then 0 else |buf| - n
    ensures r == buf[|buf| - |r|..]
  {
    if n >= |buf| then [] else buf[n..]
  }

  /** The buffer after one completed read: getline has already taken the line
      and its '\n' (length bytes), and consume(length) then removes up to
      length further bytes. */
  function AfterRead(buf: string): (r: string)
    requires '\n' in buf
    ensures |r| <= |buf| - LineLength(buf)
    ensures r == buf[|buf| - |r|..]
  {
    var length := LineLength(buf);
    Consume(buf[length..], length)
  }

  /** What the stream delivers to a pending read: a chunk of bytes, or an error
      (end of stream, a broken connection, or cancellation by close). */
  datatype Arrival = Bytes(data: string) | Failure

  /** The bytes of a sequence of arrivals, in order. */
  function Flatten(arrivals: seq<Arrival>): string {
    if arrivals == [] then []
    else (if arrivals[0].Bytes? then arrivals[0].data else []) + Flatten(arrivals[1..])
  }

  /** How async_read_until fills the buffer: chunks are appended until the
      buffer holds a '\n', an error arrives, or nothing more has arrived.
      Returns the filled buffer and the number of chunks appended. */
  function Fill(buf: string, arrivals: seq<Arrival>): (r: (string, nat))
    ensures r.1 <= |arrivals|
    decreases |arrivals|
  {
    if '\n' in buf || arrivals == [] || arrivals[0].Failure? then (buf, 0)
    else
      var r := Fill(buf + arrivals[0].data, arrivals[1..]);
      (r.0, r.1 + 1)
  }

  /** The bytes of the first j + 1 arrivals are those of the first one
      followed by those of the next j. */
  lemma FlattenFront(arrivals: seq<Arrival>, j: nat)
    requires j < |arrivals|
    ensures Flatten(arrivals[..j + 1])
            == (if arrivals[0].Bytes? then arrivals[0].data else []) + Flatten(arrivals[1..][..j])
  {
    assert arrivals[..j + 1][0] == arrivals[0];
    assert arrivals[..j + 1][1..] == arrivals[1..][..j];
  }

  /** Fill appends the first chunks, all of them bytes, and stops only when a
      '\n' is buffered, an error is next, or nothing is left. */
  lemma {:induction false} FillStopsAtFirstLine(buf: string, arrivals: seq<Arrival>)
    ensures var r := Fill(buf, arrivals);
            && (forall k :: 0 <= k < r.1 ==> arrivals[k].Bytes?)
            && r.0 == buf + Flatten(arrivals[..r.1])
            && ('\n' in r.0 || r.1 == |arrivals| || arrivals[r.1].Failure?)
    decreases |arrivals|
  {
    var r := Fill(buf, arrivals);
    if '\n' in buf || arrivals == [] || arrivals[0].Failure? {
      assert arrivals[..0] == [];
    } else {
      var tail := arrivals[1..];
      FillStopsAtFirstLine(buf + arrivals[0].data, tail);
      FlattenFront(arrivals, r.1 - 1);
    }
  }

  /** Fill stops at the first chance: before its last chunk no '\n' was
      buffered. */
  lemma {:induction false} FillTakesNoMore(buf: string, arrivals: seq<Arrival>)
    ensures var r := Fill(buf, arrivals);
            r.1 > 0 ==> '\n' !in buf + Flatten(arrivals[..r.1 - 1])
    decreases |arrivals|
  {
    var r := Fill(buf, arrivals);
    if r.1 > 1 {
      FillTakesNoMore(buf + arrivals[0].data, arrivals[1..]);
      FlattenFront(arrivals, r.1 - 2);
    } else if r.1 == 1 {
      assert arrivals[..0] == [];
    }
  }

  /** The result of one read step, as the completion handler sees it. */
  datatype ReadOutcome =
    | Delivered(line: string)  // the handler ran without error
    | Failed                   // the handler ran with an error
    | Pending                  // the read is still waiting for a '\n'

  /** The two branches of shutdown. */
  datatype ShutdownReport = Closed | AlreadyClosed

  class Peer {
    /** The connection flag shared with the console thread. */
    var connected: bool
    /** Whether the socket under the TLS stream is open. */
    var socketOpen: bool
    /** The receive buffer. */
    var buffer: string
    /** Whether a read is outstanding (there is never more than one). */
    var readArmed: bool
    /** The user name put in front of every outgoing line. */
    const name: string
    /** Frames handed to the stream for writing. */
    ghost var sent: seq<string>
    /** Lines printed on the console. */
    ghost var shown: seq<string>
    /** How often shutdown has been called. */
    ghost var shutdownCalls: nat

    /** A read is only ever armed on a connected peer. */
    ghost predicate Valid()
      reads this
    {
      readArmed ==> connected
    }

    /** A new peer: the shared flag starts false and the socket is not yet
        open; accept or connect opens it. */
    constructor (userName: string)
      ensures Valid() && name == userName
      ensures !connected && !socketOpen && buffer == [] && !readArmed
      ensures sent == [] && shown == [] && shutdownCalls == 0
    {
      name := userName;
      connected, socketOpen, buffer, readArmed := false, false, [], false;
      sent, shown, shutdownCalls := [], [], 0;
    }

    /** A successful accept (host) or connect (client) opens the socket. */
    method OpenSocket()
      requires Valid()
      modifies this`socketOpen
      ensures Valid() && socketOpen
    {
      socketOpen := true;
    }

    /** The completion handler of the handshake: on success the flag is set
        and exactly one read is armed; on failure the flag is cleared and no
        read is armed. */
    method CompleteHandshake(succeeded: bool)
      requires Valid() && !readArmed
      modifies this`connected, this`readArmed
      ensures Valid()
      ensures connected == succeeded && readArmed == succeeded
    {
      if succeeded {
        connected := true;
        readArmed := true;
      } else {
        connected := false;
      }
    }

    /** send_message: without a connection nothing is written; otherwise the
        one frame name + ": " + message + "\n" is handed to the stream. */
    method SendMessage(message: string) returns (submitted: bool)
      requires Valid()
      modifies this`sent
      ensures Valid()
      ensures submitted == connected
      ensures sent == if connected then old(sent) + [Frame(name, message)] else old(sent)
    {
      if !connected {
        return false;
      }
      sent := sent + [Frame(name, message)];
      submitted := true;
    }

    /** async_read_until on the receive buffer: chunks that arrive are
        appended until the buffer holds a '\n', an error arrives, or nothing
        more has arrived yet. Returns how many chunks were appended. */
    method ReadUntilNewline(arrivals: seq<Arrival>) returns (chunks: nat)
      requires Valid()
      modifies this`buffer
      ensures Valid()
      ensures buffer == Fill(old(buffer), arrivals).0
      ensures chunks == Fill(old(buffer), arrivals).1
    {
      var i := 0;
      while i < |arrivals| && '\n' !in buffer && arrivals[i].Bytes?
        invariant 0 <= i <= |arrivals|
        invariant Fill(buffer, arrivals[i..]).0 == Fill(old(buffer), arrivals).0
        invariant Fill(buffer, arrivals[i..]).1 + i == Fill(old(buffer), arrivals).1
      {
        assert arrivals[i..][0] == arrivals[i] && arrivals[i..][1..] == arrivals[i + 1..];
        buffer := buffer + arrivals[i].data;
        i := i + 1;
      }
      assert i == |arrivals| ==> arrivals[i..] == [];
      assert i < |arrivals| ==> arrivals[i..][0] == arrivals[i];
      chunks := i;
    }

    /** The completion handler of start_read after a successful read: getline
        takes the line and its '\n' out of the buffer, a non-empty line is
        printed, consume(length) removes up to length more bytes, and
        start_read arms the next read. */
    method HandleLine() returns (line: string)
      requires Valid() && readArmed && '\n' in buffer
      modifies this`buffer, this`readArmed, this`shown
      ensures Valid() && readArmed
      ensures line == Line(old(buffer)) && buffer == AfterRead(old(buffer))
      ensures shown == old(shown) + (if line == [] then [] else [line])
    {
      var length := LineLength(buffer);
      line := buffer[..length - 1];
      buffer := buffer[length..];
      if line != [] {
        shown := shown + [line];
      }
      buffer := Consume(buffer, length);
      readArmed := true;
    }

    /** The completion handler of start_read after an error: the error is
        printed and no further read is armed. */
    method HandleReadError()
      requires Valid() && readArmed
      modifies this`readArmed
      ensures Valid() && !readArmed
    {
      readArmed := false;
    }

    /** One step of the armed read: fill the buffer, then run the completion
        handler if the read completed. A line already in the buffer completes
        the read at once; otherwise a closed socket makes it fail and an open
        one takes arrivals. When the arrivals run out before a '\n' or an
        error, the read is still pending. Returns how many arrivals the step
        used. */
    method ReadStep(arrivals: seq<Arrival>) returns (used: nat, outcome: ReadOutcome)
      requires Valid() && readArmed
      modifies this`buffer, this`readArmed, this`shown
      ensures Valid()
      ensures var input := if socketOpen then arrivals else [];
              var filled := Fill(old(buffer), input).0;
              var chunks := Fill(old(buffer), input).1;
              if '\n' in filled then
                outcome == Delivered(Line(filled)) && used == chunks && readArmed
                && buffer == AfterRead(filled)
                && shown == old(shown) + (if Line(filled) == [] then [] else [Line(filled)])
              else if !socketOpen then
                outcome == Failed && used == 0 && !readArmed
                && buffer == old(buffer) && shown == old(shown)
              else if chunks < |arrivals| then
                outcome == Failed && used == chunks + 1 && !readArmed
                && buffer == filled && shown == old(shown)
              else
                outcome == Pending && used == chunks && readArmed
                && buffer == filled && shown == old(shown)
    {
      var input := if socketOpen then arrivals else [];
      var chunks := ReadUntilNewline(input);
      if '\n' in buffer {
        var line := HandleLine();
        used, outcome := chunks, Delivered(line);
      } else if !socketOpen {
        HandleReadError();
        used, outcome := 0, Failed;
      } else if chunks < |arrivals| {
        HandleReadError();
        used, outcome := chunks + 1, Failed;
      } else {
        used, outcome := chunks, Pending;
      }
    }

    /** shutdown: an open socket is shut down in both directions and closed
        (the error codes of both calls are only printed); a closed one is left
        as it is. */
    method Shutdown() returns (report: ShutdownReport)
      requires Valid()
      modifies this`socketOpen, this`shutdownCalls
      ensures Valid() && !socketOpen
      ensures report == if old(socketOpen) then Closed else AlreadyClosed
      ensures shutdownCalls == old(shutdownCalls) + 1
    {
      shutdownCalls := shutdownCalls + 1;
      if socketOpen {
        socketOpen := false;
        report := Closed;
      } else {
        report := AlreadyClosed;
      }
    }
  }

  /** The first '\n' decides the line length. */
  lemma LineLengthAt(buf: string, k: nat)
    requires k < |buf| && buf[k] == '\n' && '\n' !in buf[..k]
    ensures '\n' in buf && LineLength(buf) == k + 1
  {
  }

  /** After a read the buffer is the old one with the line, its '\n', and up to
      length further bytes removed from the front. */
  lemma AfterReadDropsTwice(buf: string)
    requires '\n' in buf
    ensures var length := LineLength(buf);
            AfterRead(buf) == if 2 * length >= |buf| then [] else buf[2 * length..]
  {
    var length := LineLength(buf);
    var rest := buf[length..];
    assert AfterRead(buf) == Consume(rest, length);
    if 2 * length < |buf| {
      assert rest[length..] == buf[2 * length..];
    }
  }

  /** A frame at the front of the receive buffer is delivered as
      name + ": " + message, provided neither part holds a '\n'; the bytes
      behind it then lose up to the frame's length from their front. */
  lemma FrameDelivered(name: string, message: string, rest: string)
    requires '\n' !in name && '\n' !in message
    ensures '\n' in Frame(name, message) + rest
    ensures LineLength(Frame(name, message) + rest) == |Frame(name, message)|
    ensures Line(Frame(name, message) + rest) == name + ": " + message
    ensures AfterRead(Frame(name, message) + rest) == Consume(rest, |Frame(name, message)|)
  {
    var text := name + ": " + message;
    var buf := Frame(name, message) + rest;
    assert buf == text + "\n" + rest;
    assert '\n' !in text by {
      assert text == name + ([':', ' '] + message);
    }
    assert buf[..|text|] == text;
    assert buf[|text|] == '\n';
    LineLengthAt(buf, |text|);
    assert buf[|text| + 1..] == rest;
  }

  /** Two frames that arrive in one read: the first is shown, and the second
      loses its first |Frame(name, first)| bytes; when its text is no longer
      than the first's, nothing of it is left. */
  lemma SecondFrameIsCut(name: string, first: string, second: string)
    requires '\n' !in name && '\n' !in first && '\n' !in second
    ensures var buf := Frame(name, first) + Frame(name, second);
            '\n' in buf && Line(buf) == name + ": " + first
            && AfterRead(buf) == Consume(Frame(name, second), |Frame(name, first)|)
    ensures |second| <= |first| ==> AfterRead(Frame(name, first) + Frame(name, second)) == []
  {
    FrameDelivered(name, first, Frame(name, second));
  }
}
