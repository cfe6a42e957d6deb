/** Caller identity, request bindings and the bounded replay registry. */
module RequestRegistry {
  import opened Common
  import opened Json
  import opened ProductionProtocol

  datatype PeerIdentity = PeerIdentity(pid: nat, uid: nat, uniqueOwner: string, sessionId: string, seatId: string)

  datatype RequestBinding = RequestBinding(requestId: string, action: Action, parameterDigest: string, peer: PeerIdentity)

  /** The live bindings in registration order, the recently finished IDs oldest first, and every ID
      that ever finished. */
  datatype RegistryState = RegistryState(live: seq<RequestBinding>, recent: seq<string>, finished: seq<string>)

  function Ids(bindings: seq<RequestBinding>): (ids: seq<string>)
    ensures |ids| == |bindings|
    ensures forall i :: 0 <= i < |ids| ==> ids[i] == bindings[i].requestId
  {
    seq(|bindings|, i requires 0 <= i < |bindings| => bindings[i].requestId)
  }

  /** `_live.get(id)` */
  function Find(bindings: seq<RequestBinding>, id: string): (r: Option<RequestBinding>)
    ensures r.Some? <==> id in Ids(bindings)
    ensures r.Some? ==> r.value in bindings && r.value.requestId == id
  {
    if bindings == [] then None
    else if bindings[0].requestId == id then
      assert Ids(bindings)[0] == id;
      Some(bindings[0])
    else
      assert Ids(bindings) == [bindings[0].requestId] + Ids(bindings[1..]);
      Find(bindings[1..], id)
  }

  /** The bindings that stay when some are removed, in order. */
  function Keep(bindings: seq<RequestBinding>, gone: RequestBinding -> bool): (r: seq<RequestBinding>)
    ensures forall b :: b in r <==> b in bindings && !gone(b)
    ensures |r| <= |bindings|
  {
    if bindings == [] then []
    else if gone(bindings[0]) then Keep(bindings[1..], gone)
    else [bindings[0]] + Keep(bindings[1..], gone)
  }

  function HasId(id: string): RequestBinding -> bool {
    (b: RequestBinding) => b.requestId == id
  }

  function HasOwner(owner: string): RequestBinding -> bool {
    (b: RequestBinding) => b.peer.uniqueOwner == owner
  }

  function NotOwner(owner: string): RequestBinding -> bool {
    (b: RequestBinding) => b.peer.uniqueOwner != owner
  }

  function HasPeer(peer: PeerIdentity): RequestBinding -> bool {
    (b: RequestBinding) => b.peer == peer
  }

  function NotPeer(peer: PeerIdentity): RequestBinding -> bool {
    (b: RequestBinding) => b.peer != peer
  }

  /** The last `n` elements. */
  function Last<T>(s: seq<T>, n: nat): (r: seq<T>)
    ensures |r| == if |s| <= n then |s| else n
  {
    if |s| <= n then s else s[|s| - n..]
  }

  // ----- what the operations do -----

  predicate MayRegister(r: RegistryState, binding: RequestBinding, maxLive: nat) {
    binding.requestId !in Ids(r.live) && binding.requestId !in r.recent && |r.live| < maxLive
  }

  function Registered(r: RegistryState, binding: RequestBinding): RegistryState {
    r.(live := r.live + [binding])
  }

  /** Finishing a list of live IDs: they join the recent ones, of which the newest stay. */
  function Finished(r: RegistryState, live: seq<RequestBinding>, ids: seq<string>, maxRecent: nat): RegistryState {
    RegistryState(live, Last(r.recent + ids, maxRecent), r.finished + ids)
  }

  function Completed(r: RegistryState, binding: RequestBinding, maxRecent: nat): RegistryState {
    if Find(r.live, binding.requestId) == Some(binding)
    then Finished(r, Keep(r.live, HasId(binding.requestId)), [binding.requestId], maxRecent)
    else r
  }

  function OwnedIds(r: RegistryState, owner: string): seq<string> {
    Ids(Keep(r.live, NotOwner(owner)))
  }

  function Invalidated(r: RegistryState, owner: string, maxRecent: nat): RegistryState {
    Finished(r, Keep(r.live, HasOwner(owner)), OwnedIds(r, owner), maxRecent)
  }

  /** The requests of one full identity leave: any change of process, user, owner, session or seat. */
  function IdentityInvalidated(r: RegistryState, peer: PeerIdentity, maxRecent: nat): RegistryState {
    Finished(r, Keep(r.live, HasPeer(peer)), Ids(Keep(r.live, NotPeer(peer))), maxRecent)
  }

  // ----- the invariant -----

  /** Live and recent IDs are unique, disjoint and bounded; recent is exactly the end of the finish order. */
  ghost predicate RegistryInv(r: RegistryState, maxLive: nat, maxRecent: nat) {
    && Unrepeated(Ids(r.live))
    && Unrepeated(r.recent)
    && (forall id :: id in Ids(r.live) ==> id !in r.recent)
    && |r.live| <= maxLive
    && r.recent == Last(r.finished, maxRecent)
  }

  lemma LastOfLast<T>(a: seq<T>, b: seq<T>, n: nat)
    ensures Last(Last(a, n) + b, n) == Last(a + b, n)
  {
  }

  lemma KeepIds(bindings: seq<RequestBinding>, gone: RequestBinding -> bool)
    requires Unrepeated(Ids(bindings))
    ensures Unrepeated(Ids(Keep(bindings, gone)))
    ensures forall id :: id in Ids(Keep(bindings, gone)) ==> id in Ids(bindings)
  {
    if bindings != [] {
      var rest := bindings[1..];
      assert Ids(bindings) == [bindings[0].requestId] + Ids(rest);
      assert Unrepeated(Ids(rest)) by {
        forall i, j | 0 <= i < j < |Ids(rest)| ensures Ids(rest)[i] != Ids(rest)[j] {
          assert Ids(bindings)[i + 1] != Ids(bindings)[j + 1];
        }
      }
      KeepIds(rest, gone);
      if !gone(bindings[0]) {
        var kept := Keep(rest, gone);
        assert Ids(Keep(bindings, gone)) == [bindings[0].requestId] + Ids(kept);
        assert bindings[0].requestId !in Ids(rest) by {
          forall j | 0 <= j < |Ids(rest)| ensures Ids(rest)[j] != bindings[0].requestId {
            assert Ids(bindings)[0] != Ids(bindings)[j + 1];
          }
        }
      }
    }
  }

  /** With unique IDs, one binding is found under its own ID, and only that one. */
  lemma FindUnique(bindings: seq<RequestBinding>, b: RequestBinding)
    requires Unrepeated(Ids(bindings)) && b in bindings
    ensures Find(bindings, b.requestId) == Some(b)
  {
    var i :| 0 <= i < |bindings| && bindings[i] == b;
    var found := Find(bindings, b.requestId).value;
    var j :| 0 <= j < |bindings| && bindings[j] == found;
    assert Ids(bindings)[i] == Ids(bindings)[j];
  }

  lemma InIds(bindings: seq<RequestBinding>, id: string)
    requires id in Ids(bindings)
    ensures exists b :: b in bindings && b.requestId == id
  {
    var i :| 0 <= i < |bindings| && Ids(bindings)[i] == id;
    assert bindings[i] in bindings;
  }

  lemma OwnIdInIds(bindings: seq<RequestBinding>, b: RequestBinding)
    requires b in bindings
    ensures b.requestId in Ids(bindings)
  {
    var i :| 0 <= i < |bindings| && bindings[i] == b;
    assert Ids(bindings)[i] == b.requestId;
  }

  lemma ByIds(bindings: seq<RequestBinding>, id: string)
    ensures id in Ids(bindings) <==> exists b :: b in bindings && b.requestId == id
  {
    if id in Ids(bindings) { InIds(bindings, id); }
    if b :| b in bindings && b.requestId == id { OwnIdInIds(bindings, b); }
  }

  /** Those that stay keep their order. */
  lemma KeepKeepsOrder(bindings: seq<RequestBinding>, gone: RequestBinding -> bool) returns (at: seq<nat>)
    ensures |at| == |Keep(bindings, gone)|
    ensures forall i :: 0 <= i < |at| ==> at[i] < |bindings| && bindings[at[i]] == Keep(bindings, gone)[i]
    ensures forall i, j :: 0 <= i < j < |at| ==> at[i] < at[j]
  {
    if bindings == [] {
      at := [];
    } else {
      var rest := KeepKeepsOrder(bindings[1..], gone);
      var later := seq(|rest|, i requires 0 <= i < |rest| => rest[i] + 1);
      at := if gone(bindings[0]) then later else [0] + later;
    }
  }

  lemma RegisterKeepsInv(r: RegistryState, b: RequestBinding, maxLive: nat, maxRecent: nat)
    requires RegistryInv(r, maxLive, maxRecent) && MayRegister(r, b, maxLive)
    ensures RegistryInv(Registered(r, b), maxLive, maxRecent)
  {
    assert Ids(r.live + [b]) == Ids(r.live) + [b.requestId];
  }

  /** Finishing live IDs keeps the invariant when exactly they leave the live list. */
  lemma FinishKeepsInv(r: RegistryState, live: seq<RequestBinding>, ids: seq<string>, maxLive: nat, maxRecent: nat)
    requires RegistryInv(r, maxLive, maxRecent)
    requires Unrepeated(Ids(live)) && Unrepeated(ids) && |live| <= |r.live|
    requires forall id :: id in Ids(live) ==> id in Ids(r.live) && id !in ids
    requires forall id :: id in ids ==> id in Ids(r.live)
    ensures RegistryInv(Finished(r, live, ids, maxRecent), maxLive, maxRecent)
  {
    LastOfLast(r.finished, ids, maxRecent);
    RecentStaysUnique(r.recent, ids, maxRecent);
  }

  lemma RecentStaysUnique(recent: seq<string>, ids: seq<string>, n: nat)
    requires Unrepeated(recent) && Unrepeated(ids) && forall id :: id in ids ==> id !in recent
    ensures Unrepeated(Last(recent + ids, n))
    ensures forall id :: id in Last(recent + ids, n) ==> id in recent || id in ids
  {
    var joined := recent + ids;
    forall i, j | 0 <= i < j < |joined| ensures joined[i] != joined[j] {
      if j < |recent| {
      } else if i >= |recent| {
        assert ids[i - |recent|] != ids[j - |recent|];
      } else {
        assert ids[j - |recent|] in ids && recent[i] in recent;
      }
    }
    var last := Last(joined, n);
    assert forall i :: 0 <= i < |last| ==> last[i] == joined[|joined| - |last| + i];
  }

  lemma CompleteKeepsInv(r: RegistryState, b: RequestBinding, maxLive: nat, maxRecent: nat)
    requires RegistryInv(r, maxLive, maxRecent)
    ensures RegistryInv(Completed(r, b, maxRecent), maxLive, maxRecent)
  {
    if Find(r.live, b.requestId) == Some(b) {
      var live := Keep(r.live, HasId(b.requestId));
      KeepIds(r.live, HasId(b.requestId));
      forall id | id in Ids(live) ensures id != b.requestId {
        InIds(live, id);
      }
      FinishKeepsInv(r, live, [b.requestId], maxLive, maxRecent);
    }
  }

  /** Requests that leave together keep the invariant. */
  lemma LeavingKeepsInv(r: RegistryState, gone: RequestBinding -> bool, stays: RequestBinding -> bool, maxLive: nat, maxRecent: nat)
    requires RegistryInv(r, maxLive, maxRecent) && forall b :: gone(b) <==> !stays(b)
    ensures RegistryInv(Finished(r, Keep(r.live, gone), Ids(Keep(r.live, stays)), maxRecent), maxLive, maxRecent)
  {
    var stay, leave := Keep(r.live, gone), Keep(r.live, stays);
    KeepIds(r.live, gone);
    KeepIds(r.live, stays);
    forall id | id in Ids(stay) ensures id !in Ids(leave) {
      InIds(stay, id);
      var b :| b in stay && b.requestId == id;
      FindUnique(r.live, b);
      if id in Ids(leave) {
        InIds(leave, id);
        var c :| c in leave && c.requestId == id;
        FindUnique(r.live, c);
      }
    }
    FinishKeepsInv(r, stay, Ids(leave), maxLive, maxRecent);
  }

  lemma InvalidateKeepsInv(r: RegistryState, owner: string, maxLive: nat, maxRecent: nat)
    requires RegistryInv(r, maxLive, maxRecent)
    ensures RegistryInv(Invalidated(r, owner, maxRecent), maxLive, maxRecent)
  {
    LeavingKeepsInv(r, HasOwner(owner), NotOwner(owner), maxLive, maxRecent);
  }

  /** Two live requests never share an ID, so exactly the owner's own requests are gone afterwards. */
  lemma InvalidationIsExact(r: RegistryState, owner: string, maxLive: nat, maxRecent: nat)
    requires RegistryInv(r, maxLive, maxRecent)
    ensures forall b :: b in Invalidated(r, owner, maxRecent).live <==> b in r.live && b.peer.uniqueOwner != owner
    ensures forall b :: b in r.live ==> (b.requestId in OwnedIds(r, owner) <==> b.peer.uniqueOwner == owner)
  {
    var leave := Keep(r.live, NotOwner(owner));
    forall b | b in r.live ensures b.requestId in OwnedIds(r, owner) <==> b.peer.uniqueOwner == owner {
      if b.peer.uniqueOwner == owner {
        OwnIdInIds(leave, b);
      } else {
        forall c | c in leave ensures c.requestId != b.requestId {
          FindUnique(r.live, b);
          FindUnique(r.live, c);
        }
        if b.requestId in Ids(leave) {
          InIds(leave, b.requestId);
        }
      }
    }
  }

  /** The replay window: an ID that finished may register again only after at least `maxRecent` later
      finishes, and a finished ID that is not registered again is refused exactly while it is among the
      last `maxRecent`. */
  lemma ReplayWindow(r: RegistryState, b: RequestBinding, at: nat, maxLive: nat, maxRecent: nat)
    requires RegistryInv(r, maxLive, maxRecent) && at < |r.finished| && r.finished[at] == b.requestId
    ensures MayRegister(r, b, maxLive) ==> |r.finished| - at > maxRecent
    ensures b.requestId in r.recent <==> exists i :: 0 <= i < |r.finished| && |r.finished| - i <= maxRecent && r.finished[i] == b.requestId
  {
    if |r.finished| - at <= maxRecent {
      assert r.recent[at - (|r.finished| - |r.recent|)] == b.requestId;
    }
    if b.requestId in r.recent {
      var k :| 0 <= k < |r.recent| && r.recent[k] == b.requestId;
      assert r.finished[|r.finished| - |r.recent| + k] == b.requestId;
    }
    if i :| 0 <= i < |r.finished| && |r.finished| - i <= maxRecent && r.finished[i] == b.requestId {
      assert r.recent[i - (|r.finished| - |r.recent|)] == b.requestId;
    }
  }

  // ----- the registry object -----

  class LiveRequestRegistry {
    const maxLive: nat
    const maxRecent: nat
    /** The dictionaries `_live` and `_recent` in insertion order. */
    var live: seq<RequestBinding>
    var recent: seq<string>
    ghost var finished: seq<string>

    ghost function Current(): RegistryState
      reads this
    {
      RegistryState(live, recent, finished)
    }

    ghost predicate Valid()
      reads this
    {
      maxLive >= 1 && maxRecent >= 1 && RegistryInv(Current(), maxLive, maxRecent)
    }

    constructor (maxLive: nat, maxRecent: nat)
      requires maxLive >= 1 && maxRecent >= 1
      ensures Valid() && this.maxLive == maxLive && this.maxRecent == maxRecent
      ensures Current() == RegistryState([], [], [])
    {
      this.maxLive, this.maxRecent := maxLive, maxRecent;
      live, recent, finished := [], [], [];
    }

    method Register(binding: RequestBinding) returns (ok: bool)
      requires Valid()
      modifies this
      ensures Valid()
      ensures ok <==> (forall b :: b in old(live) ==> b.requestId != binding.requestId) && binding.requestId !in old(recent)
                      && |old(live)| < maxLive
      ensures Current() == if ok then Registered(old(Current()), binding) else old(Current())
    {
      ByIds(live, binding.requestId);
      if Find(live, binding.requestId).Some? || binding.requestId in recent || |live| >= maxLive { return false; }
      RegisterKeepsInv(Current(), binding, maxLive, maxRecent);
      live := live + [binding];
      ok := true;
    }

    /** Returns a live request only when every field of the caller's identity matches. */
    method RequireOwner(id: string, peer: PeerIdentity) returns (r: Option<RequestBinding>)
      requires Valid()
      ensures r.Some? ==> r.value in live && r.value.requestId == id && r.value.peer == peer
      ensures r.None? ==> forall b :: b in live && b.requestId == id ==> b.peer != peer
    {
      r := Find(live, id);
      if r.Some? && r.value.peer != peer { r := None; }
      forall b | b in live && b.requestId == id && r.None? ensures b.peer != peer {
        FindUnique(live, b);
      }
    }

    /** The trimming loop: the oldest IDs leave one by one. */
    method TrimRecent()
      modifies this`recent
      ensures recent == Last(old(recent), maxRecent)
    {
      while |recent| > maxRecent
        invariant |recent| <= |old(recent)| && recent == old(recent)[|old(recent)| - |recent|..]
        invariant |recent| >= maxRecent || recent == old(recent)
      {
        recent := recent[1..];
      }
    }

    method Complete(binding: RequestBinding) returns (ok: bool)
      requires Valid()
      modifies this
      ensures Valid()
      ensures ok <==> Find(old(live), binding.requestId) == Some(binding)
      ensures Current() == Completed(old(Current()), binding, maxRecent)
    {
      CompleteKeepsInv(Current(), binding, maxLive, maxRecent);
      if Find(live, binding.requestId) != Some(binding) { return false; }
      live := Keep(live, HasId(binding.requestId));
      finished := finished + [binding.requestId];
      recent := recent + [binding.requestId];
      TrimRecent();
      ok := true;
    }

    /** Moves a group of live requests to the recent ones. */
    method Retire(stay: seq<RequestBinding>, removed: seq<string>)
      modifies this
      ensures Current() == Finished(old(Current()), stay, removed, maxRecent)
    {
      live := stay;
      for i := 0 to |removed|
        invariant recent == old(recent) + removed[..i] && finished == old(finished) + removed[..i] && live == stay
      {
        recent := recent + [removed[i]];
        finished := finished + [removed[i]];
        assert removed[..i + 1] == removed[..i] + [removed[i]];
      }
      assert removed[..|removed|] == removed;
      TrimRecent();
    }

    method InvalidateOwner(owner: string) returns (removed: seq<string>)
      requires Valid()
      modifies this
      ensures Valid()
      ensures forall b :: b in live <==> b in old(live) && b.peer.uniqueOwner != owner
      ensures removed == OwnedIds(old(Current()), owner)
      ensures Current() == Invalidated(old(Current()), owner, maxRecent)
    {
      InvalidateKeepsInv(Current(), owner, maxLive, maxRecent);
      removed := Ids(Keep(live, NotOwner(owner)));
      Retire(Keep(live, HasOwner(owner)), removed);
    }

    method InvalidateIdentity(peer: PeerIdentity) returns (removed: seq<string>)
      requires Valid()
      modifies this
      ensures Valid()
      ensures forall b :: b in live <==> b in old(live) && b.peer != peer
      ensures removed == Ids(Keep(old(live), NotPeer(peer)))
      ensures Current() == IdentityInvalidated(old(Current()), peer, maxRecent)
    {
      LeavingKeepsInv(Current(), HasPeer(peer), NotPeer(peer), maxLive, maxRecent);
      removed := Ids(Keep(live, NotPeer(peer)));
      Retire(Keep(live, HasPeer(peer)), removed);
    }

    /** Returns the live request only when the complete binding is the registered one. */
    method RequireLive(binding: RequestBinding) returns (ok: bool)
      requires Valid()
      ensures ok <==> binding in live
    {
      ok := Find(live, binding.requestId) == Some(binding);
      if binding in live { FindUnique(live, binding); }
    }
  }
}
