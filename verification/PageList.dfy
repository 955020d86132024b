/** Lists of pages that are threaded through the one link that the page tracker keeps for each page. */
module PageLists {
  import opened Basics

  datatype Error = PageAlreadyLinked | InvalidPage

  type Result<+T> = Fallible<T, Error>

  /** The link of each tracked page. */
  type Links = map<nat, Option<nat>>

  /* ---------------- What the links mean ---------------- */

  /** The page behind the one at position `i`. */
  function After(pages: seq<nat>, i: nat): (r: Option<nat>)
    requires i < |pages|
  {
    if i + 1 < |pages| then Some(pages[i + 1]) else None
  }

  /** The links lead from each page of the list to the next, and from the last one nowhere. */
  predicate Chain(links: Links, pages: seq<nat>) {
    && (forall i | 0 <= i < |pages| :: pages[i] in links)
    && (forall i | 0 <= i < |pages| :: links[pages[i]] == After(pages, i))
    && (forall i, j | 0 <= i < j < |pages| :: pages[i] != pages[j])
  }

  predicate Listed(ls: seq<seq<nat>>, p: nat) {
    exists k | 0 <= k < |ls| :: p in ls[k]
  }

  /** Any number of lists share the links: they have no page in common, and a page on none of them is not
      linked. */
  ghost predicate Lists(links: Links, ls: seq<seq<nat>>) {
    && (forall k | 0 <= k < |ls| :: Chain(links, ls[k]))
    && (forall k, l, p | 0 <= k < l < |ls| && p in ls[k] :: p !in ls[l])
    && (forall p | p in links && !Listed(ls, p) :: links[p] == None)
  }

  /* ---------------- push and pop ---------------- */

  /** link_pages: neither page may be linked, and zero is not a page one can link to. */
  function Link(links: Links, a: nat, b: nat): (r: Result<Links>) {
    if b !in links then Err(InvalidPage)
    else if links[b].Some? then Err(PageAlreadyLinked)
    else if a !in links then Err(InvalidPage)
    else if links[a].Some? then Err(PageAlreadyLinked)
    else if b == 0 then Err(InvalidPage)
    else Ok(links[a := Some(b)])
  }

  function Last(pages: seq<nat>): (r: Option<nat>) {
    if pages == [] then None else Some(pages[|pages| - 1])
  }

  function PushLinks(links: Links, pages: seq<nat>, p: nat): (r: Result<Links>) {
    if pages == [] then Ok(links) else Link(links, pages[|pages| - 1], p)
  }

  /** The link of the page that is taken off is cleared. */
  function PopLinks(links: Links, pages: seq<nat>): (r: Links)
    requires pages != []
  {
    links[pages[0] := None]
  }

  /** Pushing a page that is on no list appends it to this list; the other lists stay as they are. */
  lemma PushKeeps(links: Links, ls: seq<seq<nat>>, k: nat, p: nat)
    requires Lists(links, ls) && k < |ls| && p in links && p != 0 && !Listed(ls, p)
    ensures PushLinks(links, ls[k], p).Ok?
    ensures Lists(PushLinks(links, ls[k], p).value, ls[k := ls[k] + [p]])
  {
    var pages := ls[k];
    assert Chain(links, pages);
    forall q | q in pages ensures q != p {
      assert Listed(ls, q);
    }
    assert links[p] == None;
    if pages != [] { assert links[pages[|pages| - 1]] == After(pages, |pages| - 1) == None; }
    var after, lists := PushLinks(links, pages, p).value, ls[k := pages + [p]];
    assert Chain(after, pages + [p]);
    forall l | 0 <= l < |lists| ensures Chain(after, lists[l]) {
      if l != k { OtherChain(links, ls, k, l, after, pages); }
    }
    forall l, m, q | 0 <= l < m < |lists| && q in lists[l] ensures q !in lists[m] {
      assert p in ls[l] ==> Listed(ls, p);
      assert p in ls[m] ==> Listed(ls, p);
    }
    forall q | q in after && !Listed(lists, q) ensures after[q] == None {
      Unlisted(ls, k, pages + [p], q);
    }
  }

  /** A list does not depend on the links of another list's pages. */
  lemma OtherChain(links: Links, ls: seq<seq<nat>>, k: nat, l: nat, after: Links, changed: seq<nat>)
    requires Lists(links, ls) && k < |ls| && l < |ls| && k != l && changed == ls[k]
    requires forall q | q in links && q !in changed :: q in after && after[q] == links[q]
    ensures Chain(after, ls[l])
  {
    assert Chain(links, ls[l]);
    forall i | 0 <= i < |ls[l]| ensures ls[l][i] !in ls[k] {
      assert ls[l][i] in ls[l];
    }
  }

  lemma Unlisted(ls: seq<seq<nat>>, k: nat, pages: seq<nat>, q: nat)
    requires k < |ls| && !Listed(ls[k := pages], q) && (forall x | x in ls[k] :: x in pages)
    ensures !Listed(ls, q) && q !in pages
  {
    assert ls[k := pages][k] == pages;
    forall l | 0 <= l < |ls| ensures q !in ls[l] {
      assert ls[k := pages][l] == if l == k then pages else ls[l];
    }
  }

  /** Popping takes the first page off this list and unlinks it; the other lists stay as they are. */
  lemma PopKeeps(links: Links, ls: seq<seq<nat>>, k: nat)
    requires Lists(links, ls) && k < |ls| && ls[k] != []
    ensures Lists(PopLinks(links, ls[k]), ls[k := ls[k][1..]])
    ensures !Listed(ls[k := ls[k][1..]], ls[k][0])
  {
    hide Chain, Listed, PopLinks;
    var pages := ls[k];
    var after, lists := PopLinks(links, pages), ls[k := pages[1..]];
    PopLinksAre(links, pages);
    ChainPop(links, pages);
    forall l | 0 <= l < |lists| ensures Chain(after, lists[l]) {
      if l != k { OtherChain(links, ls, k, l, after, pages); }
    }
    PopUnlists(links, ls, k);
    forall q | q in after && !Listed(lists, q) ensures after[q] == None {
      if q != pages[0] && Listed(ls, q) { StillListed(ls, k, q); }
    }
  }

  lemma PopLinksAre(links: Links, pages: seq<nat>)
    requires pages != []
    ensures forall q | q in links ::
            q in PopLinks(links, pages) && (q != pages[0] ==> PopLinks(links, pages)[q] == links[q])
    ensures forall q | q in PopLinks(links, pages) :: q == pages[0] || q in links
    ensures pages[0] in PopLinks(links, pages) && PopLinks(links, pages)[pages[0]] == None
  {
  }

  lemma ChainPop(links: Links, pages: seq<nat>)
    requires Chain(links, pages) && pages != []
    ensures Chain(PopLinks(links, pages), pages[1..])
  {
    var after, rest := PopLinks(links, pages), pages[1..];
    forall i | 0 <= i < |rest| ensures rest[i] in after && after[rest[i]] == After(rest, i) {
      assert rest[i] == pages[i + 1] && pages[i + 1] in links && pages[0] != pages[i + 1];
      assert links[pages[i + 1]] == After(pages, i + 1) == After(rest, i);
    }
  }

  lemma PopUnlists(links: Links, ls: seq<seq<nat>>, k: nat)
    requires Lists(links, ls) && k < |ls| && ls[k] != []
    ensures !Listed(ls[k := ls[k][1..]], ls[k][0])
  {
    var pages := ls[k];
    assert Chain(links, pages);
    var lists := ls[k := pages[1..]];
    forall l | 0 <= l < |lists| ensures pages[0] !in lists[l] {
      assert pages[0] in ls[k];
    }
  }

  lemma StillListed(ls: seq<seq<nat>>, k: nat, q: nat)
    requires k < |ls| && ls[k] != [] && q != ls[k][0] && Listed(ls, q)
    ensures Listed(ls[k := ls[k][1..]], q)
  {
    var l :| 0 <= l < |ls| && q in ls[l];
    var rest := ls[k][1..];
    if l == k {
      var i :| 0 <= i < |ls[k]| && ls[k][i] == q;
      assert rest[i - 1] == q;
    }
    assert q in ls[k := rest][l];
  }

  /* ---------------- Runs over all lists ---------------- */

  datatype Op = Push(list: nat, page: nat) | Pop(list: nat)

  /** A page can be pushed only by whoever owns it, so it is on no list. */
  predicate Allowed(links: Links, ls: seq<seq<nat>>, op: Op) {
    match op
    case Push(k, p) => k < |ls| && p in links && p != 0 && !Listed(ls, p)
    case Pop(k) => k < |ls| && ls[k] != []
  }

  function Apply(links: Links, ls: seq<seq<nat>>, op: Op): (r: (Links, seq<seq<nat>>))
    requires Allowed(links, ls, op)
  {
    match op
    case Push(k, p) =>
      (match PushLinks(links, ls[k], p) case Ok(l) => (l, ls[k := ls[k] + [p]]) case Err(_) => (links, ls))
    case Pop(k) => (PopLinks(links, ls[k]), ls[k := ls[k][1..]])
  }

  function Run(links: Links, ls: seq<seq<nat>>, ops: seq<Op>): (r: Option<(Links, seq<seq<nat>>)>)
    decreases |ops|
  {
    if ops == [] then Some((links, ls))
    else if !Allowed(links, ls, ops[0]) then None
    else var n := Apply(links, ls, ops[0]); Run(n.0, n.1, ops[1..])
  }

  /** After any run, the links are exactly those of the lists as first-in-first-out queues. */
  lemma {:induction false} RunKeeps(links: Links, ls: seq<seq<nat>>, ops: seq<Op>)
    requires Lists(links, ls) && Run(links, ls, ops).Some?
    ensures Lists(Run(links, ls, ops).value.0, Run(links, ls, ops).value.1)
    decreases |ops|
  {
    hide Lists;
    if ops != [] {
      match ops[0] {
        case Push(k, p) => PushKeeps(links, ls, k, p);
        case Pop(k) => PopKeeps(links, ls, k);
      }
      var n := Apply(links, ls, ops[0]);
      RunKeeps(n.0, n.1, ops[1..]);
    }
  }

  /** The pages pushed to a list, in order. */
  function Pushed(ops: seq<Op>, k: nat): (r: seq<nat>) {
    if ops == [] then []
    else (if ops[0].Push? && ops[0].list == k then [ops[0].page] else []) + Pushed(ops[1..], k)
  }

  function Pops(ops: seq<Op>, k: nat): (n: nat) {
    if ops == [] then 0 else (if ops[0].Pop? && ops[0].list == k then 1 else 0) + Pops(ops[1..], k)
  }

  /** What a list holds after a run is what was pushed to it, in order, without as many as were popped. */
  lemma {:induction false} RunIsFifo(links: Links, ls: seq<seq<nat>>, ops: seq<Op>, k: nat)
    requires Lists(links, ls) && Run(links, ls, ops).Some? && k < |ls|
    ensures var after := Run(links, ls, ops).value.1;
            && |after| == |ls| && Pops(ops, k) <= |ls[k] + Pushed(ops, k)|
            && after[k] == (ls[k] + Pushed(ops, k))[Pops(ops, k)..]
    decreases |ops|
  {
    hide Lists, PushLinks, PopLinks, Listed;
    if ops == [] {
      assert ls[k] + [] == ls[k];
    } else {
      match ops[0] {
        case Push(l, p) => PushKeeps(links, ls, l, p);
        case Pop(l) => PopKeeps(links, ls, l);
      }
      var n := Apply(links, ls, ops[0]);
      RunIsFifo(n.0, n.1, ops[1..], k);
      FifoStep(ls[k], ops, k, Pushed(ops[1..], k), Pops(ops[1..], k));
    }
  }

  lemma FifoStep(pages: seq<nat>, ops: seq<Op>, k: nat, rest: seq<nat>, n: nat)
    requires ops != [] && rest == Pushed(ops[1..], k) && n == Pops(ops[1..], k)
    ensures ops[0] == Pop(k) && pages != [] ==>
              (pages[1..] + rest == (pages + Pushed(ops, k))[1..] && Pops(ops, k) == n + 1)
    ensures ops[0].Push? && ops[0].list == k ==>
              pages + [ops[0].page] + rest == pages + Pushed(ops, k) && Pops(ops, k) == n
    ensures ops[0].list != k ==> Pushed(ops, k) == rest && Pops(ops, k) == n
  {
    if ops[0].Push? && ops[0].list == k {
      Rejoin(pages, ops[0].page, rest);
    } else {
      NothingFirst(rest);
      if pages != [] { DropFirst(pages, rest); }
    }
  }

  lemma Rejoin(a: seq<nat>, x: nat, b: seq<nat>)
    ensures a + [x] + b == a + ([x] + b)
  {
  }

  lemma NothingFirst(b: seq<nat>)
    ensures [] + b == b
  {
  }

  lemma DropFirst(a: seq<nat>, b: seq<nat>)
    requires a != []
    ensures a[1..] + b == (a + b)[1..]
  {
  }

  /* ---------------- The objects ---------------- */

  class PageTracker {
    var links: Links

    constructor (links: Links)
      ensures this.links == links
    {
      this.links := links;
    }
  }

  class PageList {
    const tracker: PageTracker
    var head: Option<nat>
    var tail: Option<nat>
    var len: nat
    /** The pages on the list, first to last. */
    ghost var pages: seq<nat>

    ghost predicate Valid()
      reads this, tracker
    {
      && Chain(tracker.links, pages)
      && len == |pages| && tail == Last(pages)
      && head == (if pages == [] then None else Some(pages[0]))
    }

    constructor (tracker: PageTracker)
      ensures Valid() && this.tracker == tracker && pages == []
    {
      this.tracker, head, tail, len, pages := tracker, None, None, 0, [];
    }

    /** Takes over a list that has been linked already, from its first page on. */
    constructor FromRawParts(tracker: PageTracker, first: nat, ghost linked: seq<nat>)
      requires linked != [] && linked[0] == first && Chain(tracker.links, linked)
      ensures Valid() && this.tracker == tracker && pages == linked
    {
      var n, last := 1, first;
      while last in tracker.links && tracker.links[last].Some?
        invariant 1 <= n <= |linked| && last == linked[n - 1]
        decreases |linked| - n
      {
        assert tracker.links[linked[n - 1]] == After(linked, n - 1);
        n, last := n + 1, tracker.links[last].value;
      }
      assert tracker.links[linked[n - 1]] == After(linked, n - 1);
      this.tracker, head, tail, len, pages := tracker, Some(first), Some(last), n, linked;
    }

    method Push(p: nat) returns (r: Result<()>)
      requires Valid() && p in tracker.links && p !in pages
      modifies this, tracker
      ensures r.Ok? <==> PushLinks(old(tracker.links), old(pages), p).Ok?
      ensures r.Ok? ==> tracker.links == PushLinks(old(tracker.links), old(pages), p).value && pages == old(pages) + [p]
      ensures r.Ok? && old(tracker.links)[p] == None ==> Valid()
      ensures r.Err? ==> Valid() && tracker.links == old(tracker.links) && pages == old(pages)
    {
      if tail.Some? {
        var l := Link(tracker.links, tail.value, p);
        if l.Err? { return Err(l.error); }
        assert tracker.links[pages[|pages| - 1]] == After(pages, |pages| - 1);
        tracker.links := l.value;
        tail := Some(p);
      } else {
        head, tail := Some(p), Some(p);
      }
      len := len + 1;
      pages := pages + [p];
      return Ok(());
    }

    method Pop() returns (r: Option<nat>)
      requires Valid()
      modifies this, tracker
      ensures Valid()
      ensures if old(pages) == [] then r == None && pages == [] && tracker.links == old(tracker.links)
              else r == Some(old(pages)[0]) && pages == old(pages)[1..]
                   && tracker.links == PopLinks(old(tracker.links), old(pages))
    {
      if head.None? { return None; }
      ChainPop(tracker.links, pages);
      var p := head.value;
      assert tracker.links[pages[0]] == After(pages, 0);
      head := tracker.links[p];
      tracker.links := tracker.links[p := None];
      if head.None? { tail := None; }
      len := len - 1;
      pages := pages[1..];
      return Some(p);
    }

    /** Whether the pages follow one another in memory. */
    method IsContiguous() returns (b: bool)
      requires Valid()
      ensures b <==> forall i | 0 <= i < |pages| - 1 :: pages[i + 1] == pages[i] + 1
    {
      if head.None? { return true; }
      var prev := head.value;
      ghost var i := 0;
      assert tracker.links[pages[0]] == After(pages, 0);
      while tracker.links[prev].Some?
        invariant 0 <= i < |pages| && prev == pages[i] && tracker.links[prev] == After(pages, i)
        invariant forall j | 0 <= j < i :: pages[j + 1] == pages[j] + 1
        decreases |pages| - i
      {
        if tracker.links[prev].value != prev + 1 { return false; }
        prev := prev + 1;
        i := i + 1;
        assert tracker.links[pages[i]] == After(pages, i);
      }
      return true;
    }

    /** Takes all pages off the list. */
    method Drop()
      requires Valid()
      modifies this, tracker
      ensures Valid() && pages == []
      ensures forall p | p in old(tracker.links) ::
                p in tracker.links && tracker.links[p] == if p in old(pages) then None else old(tracker.links)[p]
    {
      hide Chain;
      ghost var all := pages;
      ghost var n := 0;
      while head.Some?
        invariant Valid() && n <= |all| && pages == all[n..]
        invariant forall p | p in old(tracker.links) ::
                    p in tracker.links && tracker.links[p] == if p in all[..n] then None else old(tracker.links)[p]
        decreases |pages|
      {
        var _ := Pop();
        assert all[..n + 1] == all[..n] + [all[n]];
        n := n + 1;
      }
      assert all[..n] == all;
    }
  }
}
