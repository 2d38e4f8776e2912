/** Clients of the registry: short runs of handlers whose outcome follows
    from the handlers' contracts alone. */
module Scenarios {
  import opened ChatTypes
  import opened Lookup
  import opened FanOut
  import opened Away
  import opened ChatServer

  /** Two sockets, logged in as "A" (handle 1) and "B" (handle 2), and one
      group "G" with members `members`, administered by "A". */
  method TwoUsersOneGroup(members: seq<string>) returns (reg: Registry)
    ensures fresh(reg) && reg.Valid()
    ensures reg.connections == TwoSockets()
    ensures reg.groups == [Group("G", "A", members, [])]
    ensures reg.awayUsrs == []
  {
    reg := new Registry();
    reg.Connect(1);
    reg.Connect(2);
    var ok := reg.NewUser(1, "A");
    ok := reg.NewUser(2, "B");
    ok := reg.NewGroup(Group("G", "A", members, []));
  }

  /** "B" asks to join "G", and the request reaches the admin's socket; A
      approves, and B is on the roster. */
  method JoinAndApprove() returns (asked: Outcome<Option<seq<string>>>, adminAsked: bool,
                                   roster: seq<string>)
    ensures asked == Done(None)
    ensures adminAsked
    ensures roster == ["A", "B"]
  {
    var reg := TwoUsersOneGroup(["A"]);
    var cs := reg.connections;
    assert FindGroup(reg.groups, "G") == Some(0);
    assert FindConn(cs, "A") == Some(0);
    assert FindConn(cs, "B") == Some(1);

    asked := reg.JoinGroup(2, "G", "B");
    adminAsked := Event(1, AskedForPermission("B", "G")) in reg.outbox;

    var approved := reg.Approve("B", "G");
    roster := reg.groups[0].users;
  }

  /** The two logged-in sockets of the scenarios. */
  function TwoSockets(): seq<Conn>
  {
    [Conn(1, Some("A")), Conn(2, Some("B"))]
  }

  /** Each name reaches its own socket and no other. */
  lemma TwoSocketsMatching()
    ensures Matching(TwoSockets(), "A") == [1]
    ensures Matching(TwoSockets(), "B") == [2]
  {
    var cs := TwoSockets();
    assert cs[..1] == [Conn(1, Some("A"))];
    assert cs[..1][..0] == [];
  }

  /** Members "A" then "B" are served on socket 1, then socket 2. */
  lemma TwoSocketsDeliver(members: seq<string>)
    requires members == ["A", "B"]
    ensures Deliveries(members, TwoSockets()) == [1, 2]
  {
    TwoSocketsMatching();
    assert members[..1] == ["A"];
    assert members[..1][..0] == [];
    assert Deliveries(members[..1], TwoSockets()) == [1];
  }

  /** Sockets 1 then 2 each receive the whole block of messages. */
  lemma BroadcastOneTwo(m: seq<Msg>)
    ensures Broadcast([1, 2], m) == Send(1, m) + Send(2, m)
  {
  }

  /** How a message from "B" fans out over the two sockets. */
  lemma TwoSocketsHearB(members: seq<string>)
    requires members == ["A", "B"]
    ensures FindGroup([Group("G", "A", members, [])], "G") == Some(0)
    ensures UsernameOf(TwoSockets(), 2) == Some("B")
    ensures Broadcast(Deliveries(members, TwoSockets()), GroupMessage(false, "B", "hi", Some("B")))
         == [Event(1, NewMessage("hi", Some("B"))), Event(2, NewMessage("hi", Some("B")))]
  {
    TwoSocketsDeliver(members);
    var m := [NewMessage("hi", Some("B"))];
    assert GroupMessage(false, "B", "hi", Some("B")) == m;
    BroadcastOneTwo(m);
    assert Send(1, m) == [Event(1, NewMessage("hi", Some("B")))];
    assert Send(2, m) == [Event(2, NewMessage("hi", Some("B")))];
  }

  /** With both users in "G", a message from B reaches both sockets, in
      member order. */
  method TalkReachesMembers() returns (sent: Outcome<()>, delivered: seq<Event>)
    ensures sent.Done?
    ensures delivered == [Event(1, NewMessage("hi", Some("B"))), Event(2, NewMessage("hi", Some("B")))]
  {
    var reg := TwoUsersOneGroup(["A", "B"]);
    TwoSocketsHearB(["A", "B"]);
    var before := reg.outbox;
    sent := reg.SendMessage(2, "hi", "G", "B");
    delivered := reg.outbox[|before|..];
  }

  /** A banned member who asks to join again is denied, and nothing is
      sent to the admin: the join request adds exactly one event. */
  method BanThenJoin() returns (banned: Outcome<bool>, asked: Outcome<Option<seq<string>>>, delivered: seq<Event>)
    ensures banned == Done(true)
    ensures asked == Done(None)
    ensures delivered == [Event(2, DenyBecauseOfBan)]
  {
    var reg := TwoUsersOneGroup(["A", "B"]);
    assert FindGroup(reg.groups, "G") == Some(0);
    assert FindConn(reg.connections, "B") == Some(1);
    banned := reg.Ban("A", "B", "G");
    assert reg.groups[0].users == ["A"];
    var before := reg.outbox;
    asked := reg.JoinGroup(2, "G", "B");
    delivered := reg.outbox[|before|..];
  }

  /** The two users of "G", with B marked away in it twice. */
  method AwayTwice() returns (reg: Registry)
    ensures fresh(reg) && reg.Valid()
    ensures reg.connections == TwoSockets()
    ensures reg.groups == [Group("G", "A", ["A", "B"], [])]
    ensures reg.awayUsrs == [AwayMarker("B", "G"), AwayMarker("B", "G")]
  {
    reg := TwoUsersOneGroup(["A", "B"]);
    assert FindGroup(reg.groups, "G") == Some(0);
    var r := reg.Away("B", "G");
    r := reg.Away("B", "G");
  }

  /** Both markers of "B" go when B talks, so that a private message from
      "A" then reaches B's socket. */
  lemma TalkingClearsBoth(gs: seq<Group>)
    requires gs == [Group("G", "A", ["A", "B"], [])]
    ensures FindGroup(gs, "G") == Some(0)
    ensures FindConn(TwoSockets(), "B") == Some(1)
    ensures ClearAway([AwayMarker("B", "G"), AwayMarker("B", "G")], "B") == []
  {
  }

  /** "B" marks themselves away twice, then talks: both markers go, and a
      private message from "A" reaches B's socket. This holds with the
      intended clearing, which the registry uses; the `send message`
      handler as written clears only the first marker (see
      `AsWrittenKeepsOneMarker` and `TalkingAsWrittenStaysAway`). */
  method TalkingEndsAway() returns (reply: Outcome<()>, last: Event)
    ensures reply == Done(())
    ensures last == Event(2, NewMessage("hello", Some("A")))
  {
    var reg := AwayTwice();
    TalkingClearsBoth(reg.groups);
    var r := reg.SendMessage(2, "back", "G", "B");
    assert reg.awayUsrs == [];
    reply := reg.PrivateMessage("A", "B", "hello");
    last := reg.outbox[|reg.outbox| - 1];
  }

  /** The markers the `send message` scan leaves as written when "B" is
      marked away twice: it splices the first and skips the second, so "B"
      is still marked. */
  lemma AsWrittenKeepsOneMarker()
    ensures Scan([AwayMarker("B", "G"), AwayMarker("B", "G")], "B", 0).0 == [AwayMarker("B", "G")]
    ensures HasMarker(Scan([AwayMarker("B", "G"), AwayMarker("B", "G")], "B", 0).0, "B")
  {
    ScanLeavesSecondMarker("B", "G", "G");
    assert [AwayMarker("B", "G")][0].user == "B";
  }

  /** The run of `TalkingEndsAway` with the markers the as-written scan
      leaves, written into the registry directly in place of the `send
      message` call: the private message from "A" is not delivered, and
      the only event is A's own socket being told that B is away. */
  method TalkingAsWrittenStaysAway() returns (reply: Outcome<()>, delivered: seq<Event>)
    ensures reply == Done(())
    ensures delivered == [Event(1, TargetIsAway("B"))]
  {
    var reg := AwayTwice();
    AsWrittenKeepsOneMarker();
    reg.awayUsrs := Scan(reg.awayUsrs, "B", 0).0;
    assert FindConn(reg.connections, "A") == Some(0);
    var before := reg.outbox;
    reply := reg.PrivateMessage("A", "B", "hello");
    delivered := reg.outbox[|before|..];
  }
}
