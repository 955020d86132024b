/** VMIDs on one physical CPU. They are handed out in order; when they have run out, the version goes up and
    the whole TLB is flushed, so that a VMID means at most one vCPU for as long as its version is current. */
module VmIds {
  import opened Bits

  lemma Wraps(a: nat, n: nat)
    requires a < n
    ensures (a + 1) % n == if a + 1 == n then 0 else a + 1
  {
  }

  datatype VmId = VmId(vmid: nat, version: nat)

  /** The VMID to hand out next and the version; `count` is the number of VMIDs the CPU has. */
  datatype Ids = Ids(next: nat, version: nat, count: nat)

  function NextVmId(t: Ids): (r: (Ids, VmId, bool))
    requires t.next < t.count
    ensures r.0.next < r.0.count == t.count
  {
    var version := if t.next == 0 then t.version + 1 else t.version;
    (Ids(if t.next + 1 == t.count then 0 else t.next + 1, version, t.count), VmId(t.next, version), t.next == 0)
  }

  /** The VMID may be in use: it was handed out at the current version. */
  predicate HandedOut(t: Ids, vmid: nat) {
    t.next == 0 || vmid < t.next
  }

  /** Over any number of calls: a VMID is handed out again only after a flush. */
  function Calls(t: Ids, n: nat): (r: (Ids, seq<(VmId, bool)>))
    requires t.next < t.count
    ensures r.0.next < r.0.count == t.count && |r.1| == n
  {
    if n == 0 then (t, [])
    else
      var (t1, ids) := Calls(t, n - 1);
      var (t2, id, flushed) := NextVmId(t1);
      (t2, ids + [(id, flushed)])
  }

  lemma {:induction false} InOrder(t: Ids, n: nat, i: nat)
    requires t.next < t.count && i < n
    ensures var (t1, ids) := Calls(t, n);
            && ids[i].0.vmid < t.count && ids[i].0.version <= t1.version
            && (ids[i].0.version == t1.version ==> HandedOut(t1, ids[i].0.vmid))
  {
    var (t1, ids) := Calls(t, n - 1);
    if i < n - 1 { InOrder(t, n - 1, i); }
  }

  lemma {:induction false} FlushSince(t: Ids, n: nat, i: nat)
    requires t.next < t.count && i < n
    ensures Calls(t, n).1[i].0.version < Calls(t, n).0.version ==> exists k | i < k < n :: Calls(t, n).1[k].1
  {
    var (t1, ids) := Calls(t, n - 1);
    var (t2, id, flushed) := NextVmId(t1);
    var all := ids + [(id, flushed)];
    if i < n - 1 {
      FlushSince(t, n - 1, i);
      if flushed {
        assert all[n - 1].1;
      } else if all[i].0.version < t2.version {
        var k :| i < k < n - 1 && ids[k].1;
        assert all[k].1;
      }
    }
  }

  /** A call never gives a VMID that an earlier call gave at the same version, and if the version has
      changed since that call, the TLB was flushed in between or is by this call. */
  lemma VmIdUnique(t: Ids, n: nat, i: nat)
    requires t.next < t.count && i < n
    ensures var (t1, ids) := Calls(t, n);
            var (_, id, flushed) := NextVmId(t1);
            && id != ids[i].0
            && (id.version != ids[i].0.version ==> flushed || exists k | i < k < n :: ids[k].1)
  {
    InOrder(t, n, i);
    FlushSince(t, n, i);
  }

  lemma OneMore(n: nat, c: nat)
    requires c > 0
    ensures if n % c + 1 == c then (n + 1) % c == 0 && (n + 1) / c == n / c + 1
            else (n + 1) % c == n % c + 1 && (n + 1) / c == n / c
  {
    var q, r := n / c, n % c;
    assert n == q * c + r;
    if r + 1 == c {
      Distribute(q, 1, c);
      DivIs(n + 1, q + 1, c, 0);
    } else {
      DivIs(n + 1, q, c, r + 1);
    }
  }

  /** From the start on, VMIDs are handed out in turn, and there is a new version, with a flush, each time they have all
      been. */
  lemma {:induction false} HandedOutInTurn(c: nat, n: nat)
    requires c > 0
    ensures var t := Calls(Ids(0, 0, c), n).0;
            t.next == n % c && t.version == if n % c == 0 then n / c else n / c + 1
    ensures n > 0 ==> Calls(Ids(0, 0, c), n).1[n - 1] == (VmId((n - 1) % c, (n - 1) / c + 1), (n - 1) % c == 0)
  {
    if n == 0 {
      DivIs(0, 0, c, 0);
    } else {
      HandedOutInTurn(c, n - 1);
      OneMore(n - 1, c);
    }
  }

  class VmIdTracker {
    const bits: nat
    var next: nat
    var version: nat
    /** The local TLB has been flushed by the last call. */
    var flushed: bool

    ghost predicate Valid()
      reads this
    {
      next < Pow2(bits)
    }

    ghost function View(): (t: Ids)
      reads this
    {
      Ids(next, version, Pow2(bits))
    }

    constructor (bits: nat)
      ensures Valid() && View() == Ids(0, 0, Pow2(bits))
    {
      this.bits, next, version, flushed := bits, 0, 0, false;
    }

    method DoNextVmId() returns (id: VmId)
      requires Valid()
      modifies this
      ensures Valid() && View() == NextVmId(old(View())).0
      ensures id == NextVmId(old(View())).1 && flushed == NextVmId(old(View())).2
    {
      flushed := next == 0;
      if next == 0 { version := version + 1; }
      var vmid := next;
      Wraps(next, Pow2(bits));
      next := (next + 1) % Pow2(bits);
      return VmId(vmid, version);
    }
  }
}
