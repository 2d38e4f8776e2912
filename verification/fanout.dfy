/** Notification fan-out: the nested `forEach` loops that turn a list of
    names into the sockets logged in under them, and the events those
    sockets receive. */
module FanOut {
  import opened ChatTypes
  import opened Lookup

  /** The inner loop over `connections`: the handles of the sockets logged
      in as `u`, in connection order. */
  function Matching(cs: seq<Conn>, u: string): (r: seq<ConnId>)
    ensures |r| <= |cs|
    decreases |cs|
  {
    if cs == [] then []
    else
      var last := cs[|cs| - 1];
      Matching(cs[..|cs| - 1], u) + (if last.username == Some(u) then [last.id] else [])
  }

  /** The outer loop over a list of names: for each name in turn, the
      sockets logged in under it. A name listed twice is served twice. */
  function Deliveries(ms: seq<string>, cs: seq<Conn>): seq<ConnId>
    decreases |ms|
  {
    if ms == [] then [] else Deliveries(ms[..|ms| - 1], cs) + Matching(cs, ms[|ms| - 1])
  }

  /** The `emit`s one socket receives, in order. */
  function Send(id: ConnId, msgs: seq<Msg>): seq<Event>
  {
    seq(|msgs|, j requires 0 <= j < |msgs| => Event(id, msgs[j]))
  }

  /** Every socket of `ids` in turn receives all of `msgs`. */
  function Broadcast(ids: seq<ConnId>, msgs: seq<Msg>): seq<Event>
    decreases |ids|
  {
    if ids == [] then [] else Broadcast(ids[..|ids| - 1], msgs) + Send(ids[|ids| - 1], msgs)
  }

  /** A socket is reached exactly when it is logged in as `u`. */
  lemma {:induction false} MatchingSpec(cs: seq<Conn>, u: string, id: ConnId)
    ensures id in Matching(cs, u) <==>
      exists k :: 0 <= k < |cs| && cs[k].id == id && cs[k].username == Some(u)
    decreases |cs|
  {
    if cs != [] {
      var n := |cs| - 1;
      MatchingSpec(cs[..n], u, id);
      assert forall k :: 0 <= k < n ==> cs[..n][k] == cs[k];
    }
  }

  /** Since no two sockets share a handle, the inner loop reaches each
      socket at most once. */
  lemma {:induction false} MatchingDistinct(cs: seq<Conn>, u: string)
    requires DistinctIds(cs)
    ensures forall i, j :: 0 <= i < j < |Matching(cs, u)| ==> Matching(cs, u)[i] != Matching(cs, u)[j]
    decreases |cs|
  {
    if cs != [] {
      var n := |cs| - 1;
      var front := cs[..n];
      assert DistinctIds(front) by {
        forall i, j | 0 <= i < j < n ensures front[i].id != front[j].id {
          assert front[i] == cs[i] && front[j] == cs[j];
        }
      }
      MatchingDistinct(front, u);
      if cs[n].username == Some(u) {
        MatchingSpec(front, u, cs[n].id);
        assert cs[n].id !in Matching(front, u) by {
          forall k | 0 <= k < n ensures front[k].id != cs[n].id {
            assert front[k] == cs[k];
          }
        }
      }
    }
  }

  /** A socket is reached by the fan-out exactly when the name it is logged
      in under is on the list; offline names are skipped. */
  lemma {:induction false} DeliveriesSpec(ms: seq<string>, cs: seq<Conn>, id: ConnId)
    ensures id in Deliveries(ms, cs) <==>
      exists k :: 0 <= k < |cs| && cs[k].id == id && cs[k].username.Some? && cs[k].username.value in ms
    decreases |ms|
  {
    if ms != [] {
      var n := |ms| - 1;
      DeliveriesSpec(ms[..n], cs, id);
      MatchingSpec(cs, ms[n], id);
      assert ms == ms[..n] + [ms[n]];
      assert forall x :: x in ms <==> x in ms[..n] || x == ms[n];
    }
  }

  /** Each socket of `ids` contributes one block of `|msgs|` events. */
  lemma {:induction false} BroadcastLength(ids: seq<ConnId>, msgs: seq<Msg>)
    ensures |Broadcast(ids, msgs)| == |ids| * |msgs|
    decreases |ids|
  {
    if ids != [] {
      var n := |ids| - 1;
      BroadcastLength(ids[..n], msgs);
      assert (n + 1) * |msgs| == n * |msgs| + |msgs|;
    }
  }

  /** The `j`-th message to the `k`-th socket sits at `k * |msgs| + j`: each
      socket gets its messages together and in order, and the sockets are
      served in list order. */
  lemma {:induction false} BroadcastAt(ids: seq<ConnId>, msgs: seq<Msg>, k: nat, j: nat)
    requires k < |ids| && j < |msgs|
    ensures |Broadcast(ids, msgs)| == |ids| * |msgs|
    ensures k * |msgs| + j < |Broadcast(ids, msgs)|
    ensures Broadcast(ids, msgs)[k * |msgs| + j] == Event(ids[k], msgs[j])
    decreases |ids|
  {
    var n := |ids| - 1;
    BroadcastLength(ids, msgs);
    BroadcastLength(ids[..n], msgs);
    assert (n + 1) * |msgs| == n * |msgs| + |msgs|;
    if k < n {
      BroadcastAt(ids[..n], msgs, k, j);
    } else {
      assert k * |msgs| == |Broadcast(ids[..n], msgs)|;
    }
  }

  /** An event is broadcast exactly when it goes to one of the sockets and
      carries one of the messages. */
  lemma {:induction false} BroadcastMembers(ids: seq<ConnId>, msgs: seq<Msg>, e: Event)
    ensures e in Broadcast(ids, msgs) <==> e.to in ids && e.msg in msgs
    decreases |ids|
  {
    if ids != [] {
      var n := |ids| - 1;
      BroadcastMembers(ids[..n], msgs, e);
      assert ids == ids[..n] + [ids[n]];
      assert e in Send(ids[n], msgs) <==> e.to == ids[n] && e.msg in msgs by {
        if e.to == ids[n] && e.msg in msgs {
          var j :| 0 <= j < |msgs| && msgs[j] == e.msg;
          assert Send(ids[n], msgs)[j] == e;
        }
      }
    }
  }

  /** One more name, one more round of the outer loop. */
  lemma DeliveriesSnoc(ms: seq<string>, u: string, cs: seq<Conn>)
    ensures Deliveries(ms + [u], cs) == Deliveries(ms, cs) + Matching(cs, u)
  {
    assert (ms + [u])[..|ms|] == ms;
  }

  /** One more name of a list, one more step of the outer loop: its
      sockets are served after those of the names before it. */
  lemma DeliveriesStep(ms: seq<string>, i: nat, cs: seq<Conn>, msgs: seq<Msg>)
    requires i < |ms|
    ensures Broadcast(Deliveries(ms[..i + 1], cs), msgs)
      == Broadcast(Deliveries(ms[..i], cs), msgs) + Broadcast(Matching(cs, ms[i]), msgs)
  {
    assert ms[..i + 1] == ms[..i] + [ms[i]];
    DeliveriesSnoc(ms[..i], ms[i], cs);
    BroadcastConcat(Deliveries(ms[..i], cs), Matching(cs, ms[i]), msgs);
  }

  /** A log that held the events for the first `i` names, extended by the
      events for the next name, holds the events for the first `i + 1`. */
  lemma ServeNext(base: seq<Event>, ms: seq<string>, i: nat, cs: seq<Conn>, msgs: seq<Msg>,
                  before: seq<Event>, after: seq<Event>)
    requires i < |ms|
    requires before == base + Broadcast(Deliveries(ms[..i], cs), msgs)
    requires after == before + Broadcast(Matching(cs, ms[i]), msgs)
    ensures after == base + Broadcast(Deliveries(ms[..i + 1], cs), msgs)
  {
    DeliveriesStep(ms, i, cs, msgs);
    assert after == base + (Broadcast(Deliveries(ms[..i], cs), msgs) + Broadcast(Matching(cs, ms[i]), msgs));
  }

  /** One more socket, one more step of the inner loop. */
  lemma MatchingSnoc(cs: seq<Conn>, c: Conn, u: string)
    ensures Matching(cs + [c], u) == Matching(cs, u) + (if c.username == Some(u) then [c.id] else [])
  {
    assert (cs + [c])[..|cs|] == cs;
  }

  /** One more socket, one more block of events. */
  lemma BroadcastSnoc(ids: seq<ConnId>, id: ConnId, msgs: seq<Msg>)
    ensures Broadcast(ids + [id], msgs) == Broadcast(ids, msgs) + Send(id, msgs)
  {
    assert (ids + [id])[..|ids|] == ids;
  }

  /** Serving two lists of sockets one after the other is serving their
      concatenation. */
  lemma {:induction false} BroadcastConcat(a: seq<ConnId>, b: seq<ConnId>, msgs: seq<Msg>)
    ensures Broadcast(a + b, msgs) == Broadcast(a, msgs) + Broadcast(b, msgs)
    decreases |b|
  {
    if b == [] {
      assert a + b == a;
    } else {
      var n := |b| - 1;
      var front, last := b[..n], b[n];
      assert b == front + [last];
      assert a + b == (a + front) + [last];
      BroadcastConcat(a, front, msgs);
      BroadcastSnoc(a + front, last, msgs);
      BroadcastSnoc(front, last, msgs);
      calc {
        Broadcast(a + b, msgs);
        Broadcast(a + front, msgs) + Send(last, msgs);
        (Broadcast(a, msgs) + Broadcast(front, msgs)) + Send(last, msgs);
        Broadcast(a, msgs) + (Broadcast(front, msgs) + Send(last, msgs));
        Broadcast(a, msgs) + Broadcast(b, msgs);
      }
    }
  }

  /** Who hears a fan-out: an event is emitted exactly when it carries one
      of the messages and goes to a socket logged in under a listed name. */
  lemma FanOutReaches(ms: seq<string>, cs: seq<Conn>, msgs: seq<Msg>, e: Event)
    ensures e in Broadcast(Deliveries(ms, cs), msgs) <==>
      e.msg in msgs
      && exists k :: 0 <= k < |cs| && cs[k].id == e.to && cs[k].username.Some? && cs[k].username.value in ms
  {
    BroadcastMembers(Deliveries(ms, cs), msgs, e);
    DeliveriesSpec(ms, cs, e.to);
  }
}
