/** The `find` queries of the handlers: the first group with a name, the
    first socket logged in under a name, the socket with a handle. Each
    answers a position, or `None` for the miss the handlers do not check. */
module Lookup {
  import opened ChatTypes

  /** `groups.find(g => g.name == name)`, also the `group with name` query. */
  function FindGroup(gs: seq<Group>, name: string): (r: Option<nat>)
    ensures r.Some? ==> r.value < |gs| && gs[r.value].name == name
    ensures r.Some? ==> forall j :: 0 <= j < r.value ==> gs[j].name != name
    ensures r.None? <==> forall j :: 0 <= j < |gs| ==> gs[j].name != name
    decreases |gs|
  {
    if gs == [] then None
    else if gs[0].name == name then Some(0)
    else
      match FindGroup(gs[1..], name)
      case None => None
      case Some(k) => Some(k + 1)
  }

  /** `connections.find(c => c.username == name)`: the first socket logged
      in under `name`. */
  function FindConn(cs: seq<Conn>, name: string): (r: Option<nat>)
    ensures r.Some? ==> r.value < |cs| && cs[r.value].username == Some(name)
    ensures r.Some? ==> forall j :: 0 <= j < r.value ==> cs[j].username != Some(name)
    ensures r.None? <==> forall j :: 0 <= j < |cs| ==> cs[j].username != Some(name)
    decreases |cs|
  {
    if cs == [] then None
    else if cs[0].username == Some(name) then Some(0)
    else
      match FindConn(cs[1..], name)
      case None => None
      case Some(k) => Some(k + 1)
  }

  /** `connections.indexOf(socket)`: where the socket with handle `id` sits. */
  function ConnIndex(cs: seq<Conn>, id: ConnId): (r: Option<nat>)
    ensures r.Some? ==> r.value < |cs| && cs[r.value].id == id
    ensures r.None? <==> forall j :: 0 <= j < |cs| ==> cs[j].id != id
    decreases |cs|
  {
    if cs == [] then None
    else if cs[0].id == id then Some(0)
    else
      match ConnIndex(cs[1..], id)
      case None => None
      case Some(k) => Some(k + 1)
  }

  /** Every socket object is pushed once, so no handle occurs twice. */
  ghost predicate DistinctIds(cs: seq<Conn>)
  {
    forall i, j :: 0 <= i < j < |cs| ==> cs[i].id != cs[j].id
  }

  /** The handles of all live sockets, in connection order: the audience of
      `io.emit`. */
  function Ids(cs: seq<Conn>): (r: seq<ConnId>)
    ensures |r| == |cs|
    ensures forall k :: 0 <= k < |cs| ==> r[k] == cs[k].id
  {
    seq(|cs|, k requires 0 <= k < |cs| => cs[k].id)
  }

  /** Taking one socket out of a list without repeated handles leaves
      exactly the others, in their order, and no socket with that handle. */
  lemma RemoveConnSpec(cs: seq<Conn>, k: nat)
    requires DistinctIds(cs) && k < |cs|
    ensures DistinctIds(cs[..k] + cs[k + 1..])
    ensures ConnIndex(cs[..k] + cs[k + 1..], cs[k].id).None?
    ensures forall c :: c in cs[..k] + cs[k + 1..] <==> c in cs && c.id != cs[k].id
  {
    var r := cs[..k] + cs[k + 1..];
    assert forall j :: 0 <= j < |r| ==> r[j] == (if j < k then cs[j] else cs[j + 1]);
    forall c | c in cs && c.id != cs[k].id
      ensures c in r
    {
      var j :| 0 <= j < |cs| && cs[j] == c;
      assert j != k;
      if j < k { assert r[j] == c; } else { assert r[j - 1] == c; }
    }
  }

  /** With no repeated handles, the lookup by handle finds the one socket
      that carries it. */
  lemma ConnIndexUnique(cs: seq<Conn>, k: nat)
    requires DistinctIds(cs) && k < |cs|
    ensures ConnIndex(cs, cs[k].id) == Some(k)
  {
  }

  /** The name the socket `id` is logged in under, unset for an unknown socket. */
  function UsernameOf(cs: seq<Conn>, id: ConnId): (r: Option<string>)
    ensures r.Some? ==> exists k :: 0 <= k < |cs| && cs[k].id == id && cs[k].username == r
    ensures ConnIndex(cs, id).Some? ==> r == cs[ConnIndex(cs, id).value].username
    ensures ConnIndex(cs, id).None? ==> r.None?
  {
    match ConnIndex(cs, id)
    case None => None
    case Some(k) => cs[k].username
  }
}
