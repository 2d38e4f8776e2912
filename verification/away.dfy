/** Away markers: `away` appends one, a private message to a marked user is
    refused, and the user's next group message is meant to clear them. */
module Away {
  import opened ChatTypes
  import opened JsArrays

  /** Some marker names `u` (the `forEach` of `private message`). */
  predicate HasMarker(a: seq<AwayMarker>, u: string)
    ensures HasMarker(a, u) <==> u in (set m | m in a :: m.user)
  {
    exists k :: 0 <= k < |a| && a[k].user == u
  }

  /** The clearing loop of `send message` as written, run from position `i`:
      at every marker of `sender` it sets the flag and calls
      `awayUsrs.splice(awayUsrs[i], 1)`. The marker OBJECT passed as start
      coerces to NaN and then to 0, so the FIRST marker is removed, whoever
      it belongs to, and `i` still moves on. Yields the markers left and
      the flag. */
  function Scan(a: seq<AwayMarker>, sender: string, i: nat): (r: (seq<AwayMarker>, bool))
    ensures |r.0| <= |a|
    ensures !r.1 ==> r.0 == a
    decreases |a| - i
  {
    if i >= |a| then (a, false)
    else if a[i].user == sender then
      (Scan(SpliceOne(a, 0), sender, i + 1).0, true)
    else Scan(a, sender, i + 1)
  }

  /** The flag is exact: it is raised iff a marker of `sender` sits at or
      after position `i` (removals only happen after the first match). */
  lemma {:induction false} ScanFound(a: seq<AwayMarker>, sender: string, i: nat)
    ensures Scan(a, sender, i).1 <==> exists j :: i <= j < |a| && a[j].user == sender
    decreases |a| - i
  {
    if i < |a| && a[i].user != sender {
      ScanFound(a, sender, i + 1);
    }
  }

  /** `userWasAway` is true exactly when the sender had a marker. */
  lemma WasAwayIffMarked(a: seq<AwayMarker>, sender: string)
    ensures Scan(a, sender, 0).1 <==> HasMarker(a, sender)
  {
    ScanFound(a, sender, 0);
  }

  /** The scan only ever drops markers from the front: what is left is the
      suffix from some `d` on, and nothing is dropped when the sender had
      no marker. */
  lemma {:induction false} ScanSuffix(a: seq<AwayMarker>, sender: string, i: nat) returns (d: nat)
    ensures d <= |a| && Scan(a, sender, i).0 == a[d..]
    ensures !Scan(a, sender, i).1 ==> d == 0 && Scan(a, sender, i).0 == a
    decreases |a| - i
  {
    if i < |a| {
      if a[i].user == sender {
        var e := ScanSuffix(SpliceOne(a, 0), sender, i + 1);
        assert a[1..][e..] == a[e + 1..];
        d := e + 1;
      } else {
        d := ScanSuffix(a, sender, i + 1);
      }
    } else {
      d := 0;
    }
  }

  /** The discrepancy: another user's marker stands first, so the scan
      removes it and leaves the sender's own marker in place. The sender
      stays "away" after talking, and "bob" is silently no longer away. */
  lemma ScanRemovesWrongMarker()
    ensures var a := [AwayMarker("bob", "g"), AwayMarker("ann", "g")];
      Scan(a, "ann", 0) == ([AwayMarker("ann", "g")], true)
      && HasMarker(Scan(a, "ann", 0).0, "ann")
      && !HasMarker(Scan(a, "ann", 0).0, "bob")
  {
    var a := [AwayMarker("bob", "g"), AwayMarker("ann", "g")];
    assert SpliceOne(a, 0) == [AwayMarker("ann", "g")];
    assert Scan(SpliceOne(a, 0), "ann", 2) == ([AwayMarker("ann", "g")], false);
    assert Scan(a, "ann", 1) == ([AwayMarker("ann", "g")], true);
    assert Scan(a, "ann", 0) == Scan(a, "ann", 1);
    assert [AwayMarker("ann", "g")][0].user == "ann";
  }

  /** Two markers of the sender: only the first is cleared. */
  lemma ScanLeavesSecondMarker(u: string, g: string, h: string)
    ensures Scan([AwayMarker(u, g), AwayMarker(u, h)], u, 0) == ([AwayMarker(u, h)], true)
  {
    var a := [AwayMarker(u, g), AwayMarker(u, h)];
    assert SpliceOne(a, 0) == [AwayMarker(u, h)];
    assert Scan(SpliceOne(a, 0), u, 1) == ([AwayMarker(u, h)], false);
  }

  /** The intended clearing: every marker of `sender` goes,
      every other marker stays, in order. Built front to back, as a loop
      over the markers builds it. */
  function ClearAway(a: seq<AwayMarker>, sender: string): (r: seq<AwayMarker>)
    ensures forall m :: m in r <==> m in a && m.user != sender
    decreases |a|
  {
    if a == [] then []
    else
      var n := |a| - 1;
      assert a == a[..n] + [a[n]];
      ClearAway(a[..n], sender) + (if a[n].user == sender then [] else [a[n]])
  }

  /** After the intended clearing no marker names the sender, and every
      other user is away exactly when they were before. */
  lemma ClearAwayMarkers(a: seq<AwayMarker>, sender: string)
    ensures !HasMarker(ClearAway(a, sender), sender)
    ensures forall u :: u != sender ==> (HasMarker(ClearAway(a, sender), u) <==> HasMarker(a, u))
  {
    var r := ClearAway(a, sender);
    forall k | 0 <= k < |r|
      ensures r[k].user != sender
    {
      assert r[k] in r;
    }
    forall u | u != sender
      ensures HasMarker(r, u) <==> HasMarker(a, u)
    {
      if HasMarker(a, u) {
        var k :| 0 <= k < |a| && a[k].user == u;
        assert a[k] in r;
        var j :| 0 <= j < |r| && r[j] == a[k];
      }
      if HasMarker(r, u) {
        var k :| 0 <= k < |r| && r[k].user == u;
        assert r[k] in a;
        var j :| 0 <= j < |a| && a[j] == r[k];
      }
    }
  }

  /** One more marker, one more step of the clearing loop. */
  lemma ClearAwayStep(a: seq<AwayMarker>, i: nat, sender: string)
    requires i < |a|
    ensures ClearAway(a[..i + 1], sender)
      == ClearAway(a[..i], sender) + (if a[i].user == sender then [] else [a[i]])
  {
    assert a[..i + 1][..i] == a[..i];
  }

  /** One more marker, one more chance for the flag. */
  lemma HasMarkerSnoc(a: seq<AwayMarker>, m: AwayMarker, u: string)
    ensures HasMarker(a + [m], u) <==> HasMarker(a, u) || m.user == u
  {
    if HasMarker(a, u) {
      var k :| 0 <= k < |a| && a[k].user == u;
      assert (a + [m])[k] == a[k];
    }
    if m.user == u {
      assert (a + [m])[|a|] == m;
    }
    if HasMarker(a + [m], u) && m.user != u {
      var k :| 0 <= k < |a| + 1 && (a + [m])[k].user == u;
      assert k < |a| && a[k] == (a + [m])[k];
    }
  }

  /** The flag after one more marker. */
  lemma HasMarkerStep(a: seq<AwayMarker>, i: nat, u: string)
    requires i < |a|
    ensures HasMarker(a[..i + 1], u) <==> HasMarker(a[..i], u) || a[i].user == u
  {
    assert a[..i + 1] == a[..i] + [a[i]];
    HasMarkerSnoc(a[..i], a[i], u);
  }

  /** A sender without markers clears nothing. */
  lemma {:induction false} ClearAwayAbsent(a: seq<AwayMarker>, sender: string)
    requires !HasMarker(a, sender)
    ensures ClearAway(a, sender) == a
    decreases |a|
  {
    if a != [] {
      var n := |a| - 1;
      assert a == a[..n] + [a[n]];
      HasMarkerSnoc(a[..n], a[n], sender);
      ClearAwayAbsent(a[..n], sender);
    }
  }

  /** Where the loop as written and the intended clearing part: the scan
      keeps a marker of the sender that the intended clearing drops. */
  lemma ScanMissesMarker()
    ensures var a := [AwayMarker("bob", "g"), AwayMarker("ann", "g")];
      HasMarker(Scan(a, "ann", 0).0, "ann") && !HasMarker(ClearAway(a, "ann"), "ann")
  {
    ScanRemovesWrongMarker();
    ClearAwayMarkers([AwayMarker("bob", "g"), AwayMarker("ann", "g")], "ann");
  }
}
