/** The console side of a chat session: the host-or-client choice, and the
    message loop that relays console lines to the peer until "exit" and then
    shuts the peer down. */
module ChatSession {
  import opened PeerConnection

  /** ASCII lower-casing, the reference for the case-insensitive choice. */
  function Lower(c: char): char {
    if 'A' <= c <= 'Z' then (c as int + 32) as char else c
  }

  /** The answer to "Are you hosting the connection? (y/n)": only 'y' or 'Y'
      selects host mode; every other character selects client mode. */
  function IsHost(mode: char): (host: bool)
    ensures host <==> Lower(mode) == 'y'
  {
    mode == 'y' || mode == 'Y'
  }

  /** The lines the message loop sends, read from the front as the loop does:
      stop at "exit", skip empty lines, send the rest. */
  function ChatSends(lines: seq<string>): seq<string> {
    if lines == [] || lines[0] == "exit" then []
    else (if lines[0] == "" then [] else [lines[0]]) + ChatSends(lines[1..])
  }

  /** The position of the first "exit", or |lines| when there is none. */
  function ExitIndex(lines: seq<string>): (k: nat)
    ensures k <= |lines|
    ensures "exit" !in lines[..k]
    ensures k < |lines| ==> lines[k] == "exit"
  {
    if lines == [] then 0
    else if lines[0] == "exit" then 0
    else
      var m := ExitIndex(lines[1..]);
      assert lines[..m + 1] == [lines[0]] + lines[1..][..m];
      m + 1
  }

  /** The non-empty lines of a sequence, in order. */
  function NonEmptyLines(lines: seq<string>): seq<string> {
    if lines == [] then []
    else
      var last := lines[|lines| - 1];
      NonEmptyLines(lines[..|lines| - 1]) + (if last == "" then [] else [last])
  }

  /** The frames of a sequence of messages sent under one name. */
  function Frames(name: string, messages: seq<string>): seq<string> {
    if messages == [] then []
    else Frames(name, messages[..|messages| - 1]) + [Frame(name, messages[|messages| - 1])]
  }

  lemma FramesSnoc(name: string, messages: seq<string>, message: string)
    ensures Frames(name, messages + [message]) == Frames(name, messages) + [Frame(name, message)]
  {
    assert (messages + [message])[..|messages|] == messages;
  }

  /** Reading one more line that is not "exit" sends it when it is not empty. */
  lemma {:induction false} ChatSendsSnoc(lines: seq<string>, line: string)
    requires "exit" !in lines && line != "exit"
    ensures ChatSends(lines + [line]) == ChatSends(lines) + (if line == "" then [] else [line])
  {
    if lines != [] {
      assert (lines + [line])[1..] == lines[1..] + [line];
      assert lines[0] in lines;
      ChatSendsSnoc(lines[1..], line);
    } else {
      assert [] + [line] == [line];
    }
  }

  /** Nothing from the first "exit" on is ever sent. */
  lemma {:induction false} NothingAfterExit(lines: seq<string>, i: nat)
    requires i < |lines| && lines[i] == "exit" && "exit" !in lines[..i]
    ensures ChatSends(lines) == ChatSends(lines[..i])
  {
    if i > 0 {
      assert lines[..i][0] == lines[0];
      assert lines[..i][1..] == lines[1..][..i - 1];
      NothingAfterExit(lines[1..], i - 1);
    }
  }

  /** The loop sends exactly the non-empty lines before the first "exit", each
      once and in input order. */
  lemma {:induction false} ChatSendsFiltersPrefix(lines: seq<string>)
    ensures ChatSends(lines) == NonEmptyLines(lines[..ExitIndex(lines)])
  {
    var k := ExitIndex(lines);
    var before := lines[..k];
    PrefixSends(before);
    if k < |lines| {
      NothingAfterExit(lines, k);
    } else {
      assert lines == before;
    }
  }

  /** Without "exit", the loop sends the non-empty lines. */
  lemma {:induction false} PrefixSends(lines: seq<string>)
    requires "exit" !in lines
    ensures ChatSends(lines) == NonEmptyLines(lines)
  {
    if lines != [] {
      var init := lines[..|lines| - 1];
      var last := lines[|lines| - 1];
      assert lines == init + [last];
      assert "exit" !in init by {
        assert forall x :: x in init ==> x in lines;
      }
      PrefixSends(init);
      ChatSendsSnoc(init, last);
    }
  }

  /** Only non-empty lines other than "exit" are sent. */
  lemma {:induction false} ChatSendsClean(lines: seq<string>)
    ensures forall m :: m in ChatSends(lines) ==> m != "" && m != "exit"
  {
    if lines != [] && lines[0] != "exit" {
      ChatSendsClean(lines[1..]);
    }
  }

  /** What the message loop writes to the stream for the given lines: the
      frames of the lines it sends when the peer is connected, and nothing
      when send_message finds no connection. */
  function Relayed(connected: bool, name: string, lines: seq<string>): seq<string> {
    if connected then Frames(name, ChatSends(lines)) else []
  }

  /** The message loop of run_host and run_client: lines are read in order,
      the first "exit" ends the loop, empty lines are skipped and every other
      line goes to send_message. Returns the position of the "exit" that ended
      the loop, or |lines| when the lines ran out. */
  method MessageLoop(peer: Peer, lines: seq<string>) returns (stop: nat)
    requires peer.Valid()
    modifies peer`sent
    ensures peer.Valid()
    ensures stop == ExitIndex(lines)
    ensures peer.sent == old(peer.sent) + Relayed(peer.connected, peer.name, lines)
  {
    ghost var log := peer.sent;
    var i := 0;
    while i < |lines| && lines[i] != "exit"
      invariant 0 <= i <= |lines|
      invariant peer.Valid()
      invariant "exit" !in lines[..i]
      invariant peer.sent == log + Relayed(peer.connected, peer.name, lines[..i])
    {
      var message := lines[i];
      ReadOneMore(peer.connected, peer.name, lines, i);
      if message != "" {
        var _ := peer.SendMessage(message);
      }
      i := i + 1;
    }
    stop := i;
    if i < |lines| {
      ExitEndsLoop(lines, i);
    } else {
      assert lines[..i] == lines;
    }
  }

  /** The chat session after the connection is up: the message loop, then one
      call of shutdown. When the lines run out without "exit", the console
      keeps yielding empty lines forever, so nothing more is sent and shutdown
      is never reached. */
  method Converse(peer: Peer, lines: seq<string>) returns (exited: bool)
    requires peer.Valid()
    modifies peer`sent, peer`socketOpen, peer`shutdownCalls
    ensures peer.Valid()
    ensures exited <==> "exit" in lines
    ensures peer.sent == old(peer.sent) + Relayed(peer.connected, peer.name, lines)
    ensures peer.shutdownCalls == old(peer.shutdownCalls) + (if exited then 1 else 0)
    ensures exited ==> !peer.socketOpen
    ensures !exited ==> peer.socketOpen == old(peer.socketOpen)
  {
    var stop := MessageLoop(peer, lines);
    exited := stop < |lines|;
    if exited {
      var _ := peer.Shutdown();
    } else {
      assert lines[..stop] == lines;
    }
  }

  /** One pass of the message loop over a line that is not "exit": a
      non-empty line adds its frame when the peer is connected. */
  lemma ReadOneMore(connected: bool, name: string, lines: seq<string>, i: nat)
    requires i < |lines| && lines[i] != "exit" && "exit" !in lines[..i]
    ensures "exit" !in lines[..i + 1]
    ensures var before := Relayed(connected, name, lines[..i]);
            Relayed(connected, name, lines[..i + 1])
              == if lines[i] == "" || !connected then before else before + [Frame(name, lines[i])]
  {
    assert lines[..i + 1] == lines[..i] + [lines[i]];
    ChatSendsSnoc(lines[..i], lines[i]);
    FramesSnoc(name, ChatSends(lines[..i]), lines[i]);
    if lines[i] == "" {
      assert ChatSends(lines[..i]) + [] == ChatSends(lines[..i]);
    }
  }

  /** The loop stops at the first "exit", having sent everything it will. */
  lemma ExitEndsLoop(lines: seq<string>, i: nat)
    requires i < |lines| && lines[i] == "exit" && "exit" !in lines[..i]
    ensures i == ExitIndex(lines)
    ensures ChatSends(lines) == ChatSends(lines[..i])
  {
    NothingAfterExit(lines, i);
    ExitIndexAt(lines, i);
  }

  /** The first "exit" is where ExitIndex points. */
  lemma {:induction false} ExitIndexAt(lines: seq<string>, i: nat)
    requires i < |lines| && lines[i] == "exit" && "exit" !in lines[..i]
    ensures ExitIndex(lines) == i
  {
    if i > 0 {
      assert lines[..i][0] == lines[0];
      assert lines[1..][..i - 1] == lines[..i][1..];
      ExitIndexAt(lines[1..], i - 1);
    }
  }
}
