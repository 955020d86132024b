/** TLB version tracking for one address space. A vCPU that enters the address space takes a reference
    to the current TLB version and drops it when it leaves; a fence opens a new version. Only the
    current and the previous version can be referenced, and the previous one going out of use is what
    completes a TLB shootdown. */
module TlbTrackers {
  import opened Basics

  datatype Counted = Counted(version: nat, count: nat)

  datatype Tracker = Tracker(current: Counted, prev: Option<Counted>)

  datatype TlbError = TlbCountUnderflow | InvalidTlbVersion | TlbFenceInProgress

  datatype TlbResult<+T> = TlbOk(value: T) | TlbErr(error: TlbError)

  const INITIAL: Tracker := Tracker(Counted(0, 0), None)

  /** The oldest version that may still be in use. */
  function MinVersion(t: Tracker): (v: nat) {
    if t.prev.Some? && t.prev.value.count != 0 then t.prev.value.version else t.current.version
  }

  /** Opens a new version; the flag says that nothing referenced the old one. */
  function Increment(t: Tracker): (r: TlbResult<(Tracker, bool)>) {
    if t.prev.Some? && t.prev.value.count != 0 then TlbErr(TlbFenceInProgress)
    else
      var prev := if t.current.count != 0 then Some(t.current) else None;
      TlbOk((Tracker(Counted(t.current.version + 1, 0), prev), prev.None?))
  }

  function Get(t: Tracker): (r: Tracker) {
    t.(current := Counted(t.current.version, t.current.count + 1))
  }

  /** Drops a reference; the flag says that the previous version has gone out of use. */
  function Put(t: Tracker, version: nat): (r: TlbResult<(Tracker, bool)>) {
    if t.current.version == version then
      if t.current.count == 0 then TlbErr(TlbCountUnderflow)
      else TlbOk((t.(current := Counted(version, t.current.count - 1)), false))
    else if t.prev.Some? && t.prev.value.version == version then
      if t.prev.value.count == 0 then TlbErr(TlbCountUnderflow)
      else if t.prev.value.count == 1 then TlbOk((t.(prev := None), true))
      else TlbOk((t.(prev := Some(Counted(version, t.prev.value.count - 1))), false))
    else TlbErr(InvalidTlbVersion)
  }

  /* ---------------- Accounting against the live references ---------------- */

  /** The holders of a live reference to `version`; `handles` maps each holder to the version it holds. */
  ghost function Holders(handles: map<nat, nat>, version: nat): set<nat> {
    set h | h in handles && handles[h] == version
  }

  ghost predicate Accounts(t: Tracker, handles: map<nat, nat>) {
    && t.current.count == |Holders(handles, t.current.version)|
    && (t.prev.Some? ==>
          && t.prev.value.version + 1 == t.current.version
          && t.prev.value.count == |Holders(handles, t.prev.value.version)|
          && t.prev.value.count > 0)
    && (forall h | h in handles ::
          handles[h] == t.current.version || (t.prev.Some? && handles[h] == t.prev.value.version))
  }

  lemma HoldersAfterTaking(handles: map<nat, nat>, h: nat, taken: nat, v: nat)
    requires h !in handles
    ensures |Holders(handles[h := taken], v)| == |Holders(handles, v)| + (if v == taken then 1 else 0)
  {
    if v == taken {
      assert Holders(handles[h := taken], v) == Holders(handles, v) + {h};
    } else {
      assert Holders(handles[h := taken], v) == Holders(handles, v);
    }
  }

  lemma HoldersAfterDropping(handles: map<nat, nat>, h: nat, v: nat)
    requires h in handles
    ensures |Holders(handles - {h}, v)| == |Holders(handles, v)| - (if v == handles[h] then 1 else 0)
  {
    if v == handles[h] {
      assert Holders(handles, v) == Holders(handles - {h}, v) + {h};
    } else {
      assert Holders(handles - {h}, v) == Holders(handles, v);
    }
  }

  lemma GetAccounts(t: Tracker, handles: map<nat, nat>, h: nat)
    requires Accounts(t, handles) && h !in handles
    ensures Accounts(Get(t), handles[h := t.current.version])
    ensures MinVersion(Get(t)) == MinVersion(t)
  {
    HoldersAfterTaking(handles, h, t.current.version, t.current.version);
    if t.prev.Some? {
      HoldersAfterTaking(handles, h, t.current.version, t.prev.value.version);
    }
  }

  lemma EmptyHolders(handles: map<nat, nat>, v: nat)
    requires |Holders(handles, v)| == 0
    ensures forall h | h in handles :: handles[h] != v
  {
    forall h | h in handles ensures handles[h] != v {
      assert h in Holders(handles, v) <==> handles[h] == v;
    }
  }

  /** Dropping a live reference always works; the minimum version rises only when that is announced. */
  lemma PutAccounts(t: Tracker, handles: map<nat, nat>, h: nat)
    requires Accounts(t, handles) && h in handles
    ensures Put(t, handles[h]).TlbOk?
    ensures Accounts(Put(t, handles[h]).value.0, handles - {h})
    ensures MinVersion(t) <= MinVersion(Put(t, handles[h]).value.0)
    ensures MinVersion(t) < MinVersion(Put(t, handles[h]).value.0) <==> Put(t, handles[h]).value.1
    ensures Put(t, handles[h]).value.1 ==> MinVersion(Put(t, handles[h]).value.0) == t.current.version
    ensures Put(t, handles[h]).value.0.current.version == t.current.version
  {
    assert h in Holders(handles, handles[h]);
    var rest := handles - {h};
    HoldersAfterDropping(handles, h, t.current.version);
    if t.prev.Some? {
      HoldersAfterDropping(handles, h, t.prev.value.version);
      if |Holders(rest, t.prev.value.version)| == 0 {
        EmptyHolders(rest, t.prev.value.version);
      }
    }
  }

  lemma NothingAbove(t: Tracker, handles: map<nat, nat>)
    requires Accounts(t, handles)
    ensures |Holders(handles, t.current.version + 1)| == 0
    ensures t.current.count == 0 ==> t.prev.None? ==> handles == map[]
  {
    assert Holders(handles, t.current.version + 1) == {};
    if t.current.count == 0 {
      EmptyHolders(handles, t.current.version);
      if t.prev.None? {
        assert forall h :: h !in handles;
      }
    }
  }

  lemma IncrementAccounts(t: Tracker, handles: map<nat, nat>)
    requires Accounts(t, handles) && Increment(t).TlbOk?
    ensures Accounts(Increment(t).value.0, handles)
    ensures Increment(t).value.0.current.version == t.current.version + 1
    ensures MinVersion(t) <= MinVersion(Increment(t).value.0)
    ensures MinVersion(t) < MinVersion(Increment(t).value.0) <==> Increment(t).value.1
    ensures Increment(t).value.1 <==> handles == map[]
  {
    NothingAbove(t, handles);
    if t.current.count != 0 {
      var h :| h in Holders(handles, t.current.version);
      assert h in handles;
    }
  }

  /** The minimum version is the least version anyone holds, or the current one if nobody holds any. */
  lemma MinVersionIsLeast(t: Tracker, handles: map<nat, nat>)
    requires Accounts(t, handles)
    ensures forall h | h in handles :: MinVersion(t) <= handles[h]
    ensures if handles == map[] then MinVersion(t) == t.current.version
            else exists h | h in handles :: handles[h] == MinVersion(t)
  {
    if t.prev.Some? {
      var h :| h in Holders(handles, t.prev.value.version);
      assert h in handles;
    } else if handles != map[] {
      var h :| h in handles;
      assert handles[h] == t.current.version;
    }
  }

  /* ---------------- Runs ---------------- */

  datatype Event = Enter(holder: nat) | Leave(holder: nat) | Fence

  /** One event; entering twice or leaving without having entered is not possible for a vCPU. */
  function Happens(t: Tracker, handles: map<nat, nat>, e: Event): (r: (Tracker, map<nat, nat>, bool)) {
    match e
    case Enter(h) => if h in handles then (t, handles, false) else (Get(t), handles[h := t.current.version], false)
    case Leave(h) =>
      if h !in handles then (t, handles, false)
      else (match Put(t, handles[h])
            case TlbOk(p) => (p.0, handles - {h}, p.1)
            case TlbErr(_) => (t, handles, false))
    case Fence =>
      match Increment(t)
      case TlbOk(p) => (p.0, handles, p.1)
      case TlbErr(_) => (t, handles, false)
  }

  function After(t: Tracker, handles: map<nat, nat>, events: seq<Event>): (r: (Tracker, map<nat, nat>))
    decreases |events|
  {
    if events == [] then (t, handles)
    else var s := Happens(t, handles, events[0]); After(s.0, s.1, events[1..])
  }

  lemma EventAccounts(t: Tracker, handles: map<nat, nat>, e: Event)
    requires Accounts(t, handles)
    ensures var s := Happens(t, handles, e);
            && Accounts(s.0, s.1)
            && MinVersion(t) <= MinVersion(s.0)
            && t.current.version <= s.0.current.version
            && (MinVersion(t) < MinVersion(s.0) <==> s.2)
            && (e.Leave? && e.holder in handles ==> Put(t, handles[e.holder]).TlbOk? && e.holder !in s.1)
  {
    match e
    case Enter(h) => if h !in handles { GetAccounts(t, handles, h); }
    case Leave(h) => if h in handles { PutAccounts(t, handles, h); }
    case Fence => if Increment(t).TlbOk? { IncrementAccounts(t, handles); }
  }

  /** Over every run: the counts are exact, no live reference is ever older than the previous version (so
      it can always be dropped), and neither the current nor the minimum version ever goes back. */
  lemma {:induction false} RunAccounts(t: Tracker, handles: map<nat, nat>, events: seq<Event>)
    requires Accounts(t, handles)
    ensures var s := After(t, handles, events);
            && Accounts(s.0, s.1)
            && MinVersion(t) <= MinVersion(s.0)
            && (forall h | h in s.1 :: Put(s.0, s.1[h]).TlbOk? && MinVersion(s.0) <= s.1[h] <= s.0.current.version)
    decreases |events|
  {
    if events == [] {
      forall h | h in handles ensures Put(t, handles[h]).TlbOk? && MinVersion(t) <= handles[h] <= t.current.version {
        PutAccounts(t, handles, h);
      }
    } else {
      EventAccounts(t, handles, events[0]);
      var s := Happens(t, handles, events[0]);
      RunAccounts(s.0, s.1, events[1..]);
    }
  }

  /** A fence is refused exactly while some vCPU still holds the previous version. */
  lemma FenceRefusedIff(events: seq<Event>)
    ensures var s := After(INITIAL, map[], events);
            Increment(s.0).TlbErr? <==> exists h | h in s.1 :: s.1[h] < s.0.current.version
  {
    assert Holders(map[], 0) == {};
    RunAccounts(INITIAL, map[], events);
    var s := After(INITIAL, map[], events);
    FenceRefused(s.0, s.1);
  }

  lemma FenceRefused(t: Tracker, handles: map<nat, nat>)
    requires Accounts(t, handles)
    ensures Increment(t).TlbErr? <==> exists h | h in handles :: handles[h] < t.current.version
    ensures Increment(t).TlbOk? ==> Increment(t).value.0.current.version == t.current.version + 1
  {
    if t.prev.Some? {
      var h :| h in Holders(handles, t.prev.value.version);
      assert h in handles;
    }
  }

  /* ---------------- The class ---------------- */

  class TlbTracker {
    var current: Counted
    var prev: Option<Counted>

    ghost function View(): (t: Tracker)
      reads this
    {
      Tracker(current, prev)
    }

    constructor ()
      ensures View() == INITIAL
    {
      current, prev := Counted(0, 0), None;
    }

    method DoMinVersion() returns (v: nat)
      ensures v == MinVersion(View())
    {
      match prev {
        case Some(p) => if p.count != 0 { return p.version; }
        case None =>
      }
      return current.version;
    }

    method DoIncrement() returns (r: TlbResult<bool>)
      modifies this
      ensures match Increment(old(View()))
              case TlbOk(p) => View() == p.0 && r == TlbOk(p.1)
              case TlbErr(e) => View() == old(View()) && r == TlbErr(e)
    {
      if prev.Some? && prev.value.count != 0 { return TlbErr(TlbFenceInProgress); }
      var next := current.version + 1;
      if current.count != 0 {
        prev := Some(current);
      } else {
        prev := None;
      }
      current := Counted(next, 0);
      return TlbOk(prev.None?);
    }

    method DoGet() returns (version: nat)
      modifies this
      ensures View() == Get(old(View())) && version == old(current.version)
    {
      current := current.(count := current.count + 1);
      return current.version;
    }

    method DoPut(version: nat) returns (r: TlbResult<bool>)
      modifies this
      ensures match Put(old(View()), version)
              case TlbOk(p) => View() == p.0 && r == TlbOk(p.1)
              case TlbErr(e) => View() == old(View()) && r == TlbErr(e)
    {
      if current.version == version {
        if current.count == 0 { return TlbErr(TlbCountUnderflow); }
        current := current.(count := current.count - 1);
        return TlbOk(false);
      }
      if prev.Some? && prev.value.version == version {
        if prev.value.count == 0 { return TlbErr(TlbCountUnderflow); }
        prev := Some(prev.value.(count := prev.value.count - 1));
        if prev.value.count == 0 {
          prev := None;
          return TlbOk(true);
        }
        return TlbOk(false);
      }
      return TlbErr(InvalidTlbVersion);
    }
  }
}
