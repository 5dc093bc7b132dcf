/**
 * The text protocol shared by the chat servers and clients: the fixed
 * replies, the notices the servers format, the UDP join request and the
 * UDP client's "<name>: <text>" framing, and the server's extraction of
 * the name from a join request (Python's `message.split("join:")[1]`).
 */
module Protocol {

  const WELCOME: string := "Welcome"
  const NAME_TAKEN: string := "Name already taken"
  const SHUTDOWN: string := "server-shutdown"
  /** The literal a client sends to leave (TCP), or appends to its name (UDP). */
  const EXIT: string := "exit"
  /** The literal the TCP server passes to its broadcast to announce a newcomer. */
  const JOIN: string := "join"
  const JOIN_PREFIX: string := "join:"

  function Joined(name: string): string { "User " + name + " joined" }

  function Left(name: string): string { "User " + name + " left" }

  /** A chat line relayed on behalf of `name`. */
  function ChatLine(name: string, text: string): string { name + ": " + text }

  /**
   * The line the TCP server's broadcast sends for `message` from `name`:
   * the words "join" and "exit" are turned into notices, whatever their origin.
   */
  function RelayLine(name: string, message: string): string
  {
    if message == JOIN then Joined(name)
    else if message == EXIT then Left(name)
    else ChatLine(name, message)
  }

  /** The datagram a UDP client sends to join. */
  function JoinRequest(name: string): string { JOIN_PREFIX + name }

  /** What a UDP client sends for a typed `text`. */
  function ClientLine(name: string, text: string): (line: string)
    ensures text == EXIT ==> line == ExitPattern(name)
  {
    name + ": " + text
  }

  /** The datagram the UDP server takes as the leave request of a client called `name`. */
  function ExitPattern(name: string): string { name + ": exit" }

  predicate StartsWith(s: string, prefix: string)
  {
    |prefix| <= |s| && s[..|prefix|] == prefix
  }

  /** `sep` occurs in `s` starting at index `i`. */
  predicate OccursAt(s: string, sep: string, i: nat)
  {
    i + |sep| <= |s| && s[i..i + |sep|] == sep
  }

  predicate Contains(s: string, sep: string)
  {
    exists i: nat | i <= |s| :: OccursAt(s, sep, i)
  }

  /** The part of `s` before the first occurrence of `sep`, or all of `s` when there is none. */
  function Before(s: string, sep: string): (r: string)
    requires sep != []
    ensures r <= s
    ensures forall i: nat :: i < |r| ==> !OccursAt(s, sep, i)
    ensures r == s || OccursAt(s, sep, |r|)
    decreases |s|
  {
    if |s| < |sep| then s
    else if s[..|sep|] == sep then []
    else
      var rest := Before(s[1..], sep);
      assert forall i: nat :: OccursAt(s[1..], sep, i) <==> OccursAt(s, sep, i + 1) by {
        forall i: nat ensures OccursAt(s[1..], sep, i) <==> OccursAt(s, sep, i + 1) {
          if i + 1 + |sep| <= |s| {
            assert s[1..][i..i + |sep|] == s[i + 1..i + 1 + |sep|];
          }
        }
      }
      forall i: nat | i < |rest| + 1 ensures !OccursAt(s, sep, i) {
        if i > 0 {
          assert !OccursAt(s[1..], sep, i - 1);
        }
      }
      assert s == [s[0]] + s[1..];
      assert rest != s[1..] ==> OccursAt(s, sep, |rest| + 1);
      [s[0]] + rest
  }

  /**
   * The name the UDP server reads from a join request: the text after the
   * leading "join:" up to the next "join:" or the end.
   */
  function JoinName(message: string): (name: string)
    requires StartsWith(message, JOIN_PREFIX)
    ensures !Contains(name, JOIN_PREFIX)
    ensures name <= message[|JOIN_PREFIX|..]
  {
    var name := Before(message[|JOIN_PREFIX|..], JOIN_PREFIX);
    NoOccurrenceInPrefix(message[|JOIN_PREFIX|..], name);
    name
  }

  /** A prefix of `s` before which `sep` does not start contains no `sep`. */
  lemma NoOccurrenceInPrefix(s: string, r: string)
    requires r <= s
    requires forall i: nat :: i < |r| ==> !OccursAt(s, JOIN_PREFIX, i)
    ensures !Contains(r, JOIN_PREFIX)
  {
    forall i: nat | i <= |r| ensures !OccursAt(r, JOIN_PREFIX, i) {
      if i + |JOIN_PREFIX| <= |r| {
        assert r == s[..|r|];
        assert r[i..i + |JOIN_PREFIX|] == s[i..i + |JOIN_PREFIX|];
        assert !OccursAt(s, JOIN_PREFIX, i);
      }
    }
  }

  /**
   * The join round trip: the server reads back exactly the name the client
   * put in its join request, if and only if that name holds no "join:".
   */
  lemma JoinNameRoundTrip(name: string)
    ensures StartsWith(JoinRequest(name), JOIN_PREFIX)
    ensures JoinName(JoinRequest(name)) == name <==> !Contains(name, JOIN_PREFIX)
  {
    var msg := JoinRequest(name);
    assert msg[..|JOIN_PREFIX|] == JOIN_PREFIX;
    assert msg[|JOIN_PREFIX|..] == name;
    var r := Before(name, JOIN_PREFIX);
    if r != name {
      assert OccursAt(name, JOIN_PREFIX, |r|);
      assert Contains(name, JOIN_PREFIX);
    }
  }

  /** A client's line starts with "join:" only when its name is "join" or starts with "join:". */
  lemma ClientLineLooksLikeJoin(name: string, text: string)
    ensures StartsWith(ClientLine(name, text), JOIN_PREFIX) <==>
              name == JOIN || StartsWith(name, JOIN_PREFIX)
  {
    var line := ClientLine(name, text);
    if name == JOIN {
      assert line[..|JOIN_PREFIX|] == JOIN_PREFIX;
    } else if StartsWith(name, JOIN_PREFIX) {
      assert line[..|JOIN_PREFIX|] == name[..|JOIN_PREFIX|];
    } else if |name| >= |JOIN_PREFIX| {
      assert line[..|JOIN_PREFIX|] == name[..|JOIN_PREFIX|];
    } else if |name| == |JOIN| {
      assert line[..|JOIN_PREFIX|] == name + ":";
      assert line[..|JOIN_PREFIX|][..|JOIN|] == name;
    } else if |JOIN_PREFIX| <= |line| {
      assert line[..|JOIN_PREFIX|][|name|] == ':';
    }
  }

  /**
   * A notice "User <name><tail>" that begins with `name` itself has no ':'
   * in its first |name| + 5 characters: such a name repeats "User " over and over.
   */
  lemma {:induction false} NoticeHasNoColon(name: string, tail: string, i: nat)
    requires ("User " + name + tail)[..|name|] == name
    requires i < |name| + 5
    ensures ("User " + name + tail)[i] != ':'
    decreases i
  {
    var notice := "User " + name + tail;
    if i >= 5 {
      assert notice[i] == name[i - 5] == notice[i - 5];
      NoticeHasNoColon(name, tail, i - 5);
    }
  }

  /** No chat line of `name` reads like a notice about `name`. */
  lemma ChatLineIsNoNotice(name: string, text: string, tail: string)
    ensures ChatLine(name, text) != "User " + name + tail
  {
    var line, notice := ChatLine(name, text), "User " + name + tail;
    assert line[..|name|] == name && line[|name|] == ':';
    if notice[..|name|] == name {
      NoticeHasNoColon(name, tail, |name|);
    }
  }

  /**
   * A relayed line is a joined notice exactly when the text was "join",
   * and a left notice exactly when it was "exit"; any other text is
   * relayed as neither.
   */
  lemma RelayLineMeaning(name: string, message: string)
    ensures RelayLine(name, message) == Joined(name) <==> message == JOIN
    ensures RelayLine(name, message) == Left(name) <==> message == EXIT
  {
    NoticesDistinct(name, name);
    assert Joined(name) == "User " + name + " joined";
    assert Left(name) == "User " + name + " left";
    ChatLineIsNoNotice(name, message, " joined");
    ChatLineIsNoNotice(name, message, " left");
  }

  /**
   * The notices are told apart: a joined notice is never a left notice,
   * neither is the shutdown notice, and each determines the name in it.
   */
  lemma NoticesDistinct(a: string, b: string)
    ensures Joined(a) != Left(b)
    ensures Joined(a) != SHUTDOWN && Left(a) != SHUTDOWN
    ensures Joined(a) == Joined(b) ==> a == b
    ensures Left(a) == Left(b) ==> a == b
  {
    var ja, lb := Joined(a), Left(b);
    if |ja| == |lb| {
      assert ja[|ja| - 1] == 'd' && lb[|lb| - 1] == 't';
    }
    assert Joined(a)[0] == 'U' && Left(a)[0] == 'U';
    if Joined(a) == Joined(b) {
      assert a == Joined(a)[5..5 + |a|];
    }
    if Left(a) == Left(b) {
      assert a == Left(a)[5..5 + |a|];
    }
  }
}
