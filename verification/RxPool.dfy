/**
 The receive buffer pool under concurrency: one caller of getPacket (the receive path) and
 one refill thread share two linked lists without a lock.  Each step below is a single
 access to a shared variable; any interleaving of the two threads is a run.
 */
module RxPool {
  import opened Options

  /** The list of plain mbufs and the list of mbufs with a cluster. */
  datatype Kind = Small | Cluster

  /** A packet's identity: the serial-th one allocated for a list, or the serial-th one
      that went straight from the allocator to the caller. */
  datatype Pkt = Node(kind: Kind, serial: nat) | Direct(serial: nat)

  type Heap = map<Pkt, Option<Pkt>>

  /** Where a getPacket call that could not allocate is in its work on a list. */
  datatype Get =
    | NotHere
    | Tested                // PktNum > 1 was read
    | Counted               // PktNum decremented
    | Took                 // m = PktHead
    | Moved                // PktHead = nextpkt(m)
    | Cut                  // nextpkt(m) = NULL
    | Low                  // PktNum was read below the threshold
    | Raise                // refillScheduled was read as false
    | Raised               // refillScheduled = true

  /** Where refillPool is in its work on a list. */
  datatype Fill =
    | Away
    | Test                  // at the loop condition
    | Made                 // packet allocated
    | Linked               // nextpkt(PktTail) = m
    | Tailed               // PktTail = m
    | Ending                // about to clear refillScheduled

  /** One list: its pointers, counter and capacity, where the two threads are in it, and its
      history: how many packets were ever linked, how many the head has passed, and which
      ones were handed out. */
  datatype List = List(head: Pkt, tail: Pkt, num: int, capacity: nat, get: Get, m: Pkt,
                       fill: Fill, newPkt: Pkt,
                       made: nat, passed: nat, handed: seq<Pkt>)

  datatype Pool = Pool(small: List, cluster: List, next: Heap, flag: bool, pending: nat, direct: seq<Pkt>)

  function Of(p: Pool, k: Kind): List {
    if k == Small then p.small else p.cluster
  }

  function With(p: Pool, k: Kind, l: List): Pool {
    if k == Small then p.(small := l) else p.(cluster := l)
  }

  /** cRefillTresh and mRefillTresh. */
  function Threshold(capacity: nat): int {
    capacity - capacity / 2
  }

  // ---------------------------------------------------------------- getPacket

  predicate Outside(p: Pool) {
    p.small.get.NotHere? && p.cluster.get.NotHere?
  }

  /** Return m to the caller. */
  function HandOut(l: List): List {
    l.(handed := l.handed + [l.m], get := NotHere)
  }

  /** One step of getPacket inside a list: the list afterwards. */
  function GetList(l: List, next: Heap, flag: bool): List
    requires !l.get.NotHere?
    requires l.get.Took? ==> l.m in next && next[l.m].Some?
  {
    match l.get
    case Tested => l.(num := l.num - 1, get := Counted)
    case Counted => l.(m := l.head, get := Took)
    case Took => l.(head := next[l.m].value, passed := l.passed + 1, get := Moved)
    case Moved => l.(get := Cut)
    case Cut => if l.num < Threshold(l.capacity) then l.(get := Low) else HandOut(l)
    case Low => if !flag then l.(get := Raise) else HandOut(l)
    case Raise => l.(get := Raised)
    case Raised => HandOut(l)
  }

  // ---------------------------------------------------------------- refillPool

  /** The loop condition was read as true and mbuf_allocpacket succeeded. */
  predicate Allocates(l: List, alloc: bool) {
    l.fill.Test? && l.num < l.capacity && alloc
  }

  /** One step of refillPool inside a list: the list afterwards. */
  function FillList(l: List, k: Kind, alloc: bool): List
    requires !l.fill.Away? && !l.fill.Ending?
  {
    match l.fill
    case Test =>
      if Allocates(l, alloc) then l.(newPkt := Node(k, l.made), fill := Made)
      else if l.num < l.capacity || k == Cluster then l.(fill := Ending)
      else l.(fill := Away)
    case Made => l.(made := l.made + 1, fill := Linked)
    case Linked => l.(tail := l.newPkt, fill := Tailed)
    case Tailed => l.(num := l.num + 1, fill := Test)
  }

  // ---------------------------------------------------------------- runs

  datatype Step = Alloc | Enter(kind: Kind) | GetOn(kind: Kind) | Fire | FillOn(kind: Kind, alloc: bool)

  predicate Can(p: Pool, step: Step) {
    match step
    case Alloc => Outside(p)
    case Enter(k) => Outside(p) && Of(p, k).num > 1
    case GetOn(k) =>
      var l := Of(p, k);
      !l.get.NotHere? && (l.get.Took? ==> l.m in p.next && p.next[l.m].Some?)
    case Fire => p.pending > 0
    case FillOn(k, _) => !Of(p, k).fill.Away?
  }

  function GetOnce(p: Pool, k: Kind): Pool
    requires Can(p, GetOn(k))
  {
    var l := Of(p, k);
    var q := With(p, k, GetList(l, p.next, p.flag));
    match l.get
    case Moved => q.(next := p.next[l.m := None])
    case Raise => q.(flag := true)
    case Raised => q.(pending := p.pending + 1)
    case _ => q
  }

  function FillOnce(p: Pool, k: Kind, alloc: bool): Pool
    requires Can(p, FillOn(k, alloc))
  {
    var l := Of(p, k);
    if l.fill.Ending? then With(p, k, l.(fill := Away)).(flag := false)
    else
      var q := With(p, k, FillList(l, k, alloc));
      match l.fill
      case Test =>
        if Allocates(l, alloc) then q.(next := p.next[Node(k, l.made) := None])
        else if l.num < l.capacity || k == Cluster then q
        else q.(cluster := q.cluster.(fill := Test))
      case Made => q.(next := p.next[l.tail := Some(l.newPkt)])
      case _ => q
  }

  function Do(p: Pool, step: Step): Pool
    requires Can(p, step)
  {
    match step
    case Alloc => p.(direct := p.direct + [Direct(|p.direct|)])
    case Enter(k) => With(p, k, Of(p, k).(get := Tested))
    case GetOn(k) => GetOnce(p, k)
    case Fire => p.(pending := p.pending - 1, small := p.small.(fill := Test))
    case FillOn(k, alloc) => FillOnce(p, k, alloc)
  }

  /** One list as initWithCapacity leaves it. */
  function FullList(k: Kind, n: nat): List
    requires n > 0
  {
    List(Node(k, 0), Node(k, n - 1), n, n, NotHere, Node(k, 0), Away, Node(k, 0), n, 0, [])
  }

  /** The successor of the i-th packet when `made` were linked. */
  function Succ(k: Kind, i: nat, made: nat): Option<Pkt> {
    if i + 1 < made then Some(Node(k, i + 1)) else None
  }

  /** The links initWithCapacity makes: each packet behind the one before. */
  function Links(k: Kind, n: nat, total: nat): Heap
    requires n <= total
  {
    if n == 0 then map[] else Links(k, n - 1, total)[Node(k, n - 1) := Succ(k, n - 1, total)]
  }

  function Init(small: nat, cluster: nat): Pool
    requires small > 0 && cluster > 0
  {
    Pool(FullList(Small, small), FullList(Cluster, cluster),
         Links(Small, small, small) + Links(Cluster, cluster, cluster), false, 0, [])
  }

  function RunFrom(p: Pool, steps: seq<Step>): Option<Pool> {
    if steps == [] then Some(p)
    else
      match RunFrom(p, steps[..|steps| - 1])
      case None => None
      case Some(q) =>
        var step := steps[|steps| - 1];
        if Can(q, step) then Some(Do(q, step)) else None
  }

  // ---------------------------------------------------------------- invariant

  /** Packets the consumer has counted out but not unlinked yet. */
  function Leaving(g: Get): int {
    if g.Counted? || g.Took? then 1 else 0
  }

  /** Packets linked but not counted yet. */
  function Arriving(f: Fill): int {
    if f.Linked? || f.Tailed? then 1 else 0
  }

  /** Packets the head has passed but that getPacket has not returned yet. */
  function InHand(g: Get): int {
    if g.NotHere? || g.Tested? || g.Counted? || g.Took? then 0 else 1
  }

  /** Pointers, counter and history of one list. */
  ghost predicate Numbers(l: List, k: Kind) {
    && l.passed < l.made
    && l.head == Node(k, l.passed)
    && (if l.fill.Linked? then l.made - 2 >= l.passed && l.tail == Node(k, l.made - 2)
        else l.tail == Node(k, l.made - 1))
    && (l.fill.Made? ==> l.newPkt == Node(k, l.made))
    && (l.fill.Linked? || l.fill.Tailed? ==> l.newPkt == Node(k, l.made - 1))
    && l.num + Leaving(l.get) + Arriving(l.fill) == l.made - l.passed
    && 1 <= l.num <= l.capacity
    && (l.fill.Made? || l.fill.Linked? || l.fill.Tailed? ==> l.num < l.capacity)
    && (l.get.Tested? ==> l.num > 1)
    && (l.get.Took? ==> l.m == l.head)
    && (InHand(l.get) == 1 ==> l.passed > 0 && l.m == Node(k, l.passed - 1))
    && |l.handed| == l.passed - InHand(l.get)
  }

  /** From the head on, the packets form one chain that ends at the last packet linked. */
  ghost predicate Chained(next: Heap, k: Kind, passed: nat, made: nat) {
    forall i: nat {:trigger next[Node(k, i)]} {:trigger Node(k, i) in next} ::
      passed <= i < made ==> Node(k, i) in next && next[Node(k, i)] == Succ(k, i, made)
  }

  /** Exactly the packets allocated for list k have a link field. */
  ghost predicate Known(next: Heap, k: Kind, all: nat) {
    forall i: nat {:trigger Node(k, i) in next} :: Node(k, i) in next <==> i < all
  }

  ghost predicate LinksOk(next: Heap, l: List, k: Kind) {
    && Chained(next, k, l.passed, l.made)
    && Known(next, k, l.made + if l.fill.Made? then 1 else 0)
    && (l.fill.Made? ==> l.newPkt in next && next[l.newPkt] == None)
  }

  /** The packets handed out are the first ones linked, in the order they were linked. */
  ghost predicate Handed(handed: seq<Pkt>, k: Kind) {
    forall i {:trigger handed[i]} :: 0 <= i < |handed| ==> handed[i] == Node(k, i)
  }

  ghost predicate ListOk(l: List, k: Kind) {
    Numbers(l, k) && Handed(l.handed, k)
  }

  function One(b: bool): nat {
    if b then 1 else 0
  }

  /** How many refills are about to be scheduled, scheduled or running. */
  function Refills(p: Pool): nat {
    p.pending + One(!p.small.fill.Away?) + One(!p.cluster.fill.Away?)
    + One(p.small.get.Raised?) + One(p.cluster.get.Raised?)
  }

  ghost predicate FlagOk(p: Pool) {
    && Refills(p) == One(p.flag)
    && (p.small.get.Raise? || p.cluster.get.Raise? ==> !p.flag)
    && (p.small.get.NotHere? || p.cluster.get.NotHere?)
  }

  ghost predicate DirectOk(direct: seq<Pkt>) {
    forall i {:trigger direct[i]} :: 0 <= i < |direct| ==> direct[i] == Direct(i)
  }

  ghost predicate Lists(p: Pool) {
    ListOk(p.small, Small) && ListOk(p.cluster, Cluster)
  }

  ghost predicate AllLinks(p: Pool) {
    LinksOk(p.next, p.small, Small) && LinksOk(p.next, p.cluster, Cluster)
  }

  ghost predicate Inv(p: Pool) {
    Lists(p) && AllLinks(p) && FlagOk(p) && DirectOk(p.direct)
  }

  // ---------------------------------------------------------------- each step keeps it

  /** Once counted, the packet at the head has a successor: the last packet is never taken. */
  lemma NeverTheLast(l: List, next: Heap, k: Kind)
    requires Numbers(l, k) && Chained(next, k, l.passed, l.made) && l.get.Took?
    ensures l.m in next && next[l.m] == Some(Node(k, l.passed + 1)) && l.passed + 1 < l.made
    ensures l.tail != l.m
  {
    assert Node(k, l.passed) in next;
  }

  lemma GetNumbers(l: List, k: Kind, next: Heap, flag: bool)
    requires Numbers(l, k) && !l.get.NotHere?
    requires l.get.Took? ==>
               l.passed + 1 < l.made && l.m in next && next[l.m] == Some(Node(k, l.passed + 1))
    ensures Numbers(GetList(l, next, flag), k)
  {
  }

  lemma GetHanded(l: List, k: Kind, next: Heap, flag: bool)
    requires !l.get.NotHere? && Handed(l.handed, k)
    requires InHand(l.get) == 1 ==> l.m == Node(k, |l.handed|)
    requires l.get.Took? ==> l.m in next && next[l.m].Some?
    ensures Handed(GetList(l, next, flag).handed, k)
  {
  }

  lemma GetListOk(l: List, k: Kind, next: Heap, flag: bool)
    requires ListOk(l, k) && LinksOk(next, l, k) && !l.get.NotHere?
    requires l.get.Took? ==> l.m in next && next[l.m].Some?
    ensures ListOk(GetList(l, next, flag), k)
  {
    if l.get.Took? {
      NeverTheLast(l, next, k);
    }
    GetNumbers(l, k, next, flag);
    GetHanded(l, k, next, flag);
  }

  lemma FillListOk(l: List, k: Kind, alloc: bool)
    requires ListOk(l, k) && !l.fill.Away? && !l.fill.Ending?
    ensures ListOk(FillList(l, k, alloc), k)
  {
  }

  /** Unlinking: the new head starts the rest of the chain; cutting off m leaves it alone. */
  lemma GetLinks(l: List, k: Kind, next: Heap, flag: bool)
    requires Numbers(l, k) && LinksOk(next, l, k) && !l.get.NotHere?
    requires l.get.Took? ==> l.m in next && next[l.m].Some?
    ensures LinksOk(if l.get.Moved? then next[l.m := None] else next, GetList(l, next, flag), k)
  {
  }

  function FillHeap(next: Heap, l: List, k: Kind, alloc: bool): Heap {
    if Allocates(l, alloc) then next[Node(k, l.made) := None]
    else if l.fill.Made? then next[l.tail := Some(l.newPkt)]
    else next
  }

  lemma FillLinks(l: List, k: Kind, next: Heap, alloc: bool)
    requires Numbers(l, k) && LinksOk(next, l, k) && !l.fill.Away? && !l.fill.Ending?
    ensures LinksOk(FillHeap(next, l, k, alloc), FillList(l, k, alloc), k)
  {
  }

  /** A link of one list is no link of the other. */
  lemma OtherLinks(next: Heap, l: List, k: Kind, x: Pkt, v: Option<Pkt>)
    requires LinksOk(next, l, k) && x.Node? && x.kind != k
    requires l.fill.Made? ==> l.newPkt == Node(k, l.made)
    ensures LinksOk(next[x := v], l, k)
  {
  }

  /** Counting refills: the flag is raised before a refill is scheduled. */
  lemma GetFlag(p: Pool, k: Kind)
    requires FlagOk(p) && Can(p, GetOn(k))
    ensures FlagOk(GetOnce(p, k))
  {
  }

  lemma FillFlag(p: Pool, k: Kind, alloc: bool)
    requires FlagOk(p) && Can(p, FillOn(k, alloc))
    ensures FlagOk(FillOnce(p, k, alloc))
  {
  }

  function Other(k: Kind): Kind {
    if k == Small then Cluster else Small
  }

  lemma OnlyHere(p: Pool, k: Kind)
    requires Can(p, GetOn(k))
    ensures Of(GetOnce(p, k), k) == GetList(Of(p, k), p.next, p.flag)
    ensures Of(GetOnce(p, k), Other(k)) == Of(p, Other(k))
  {
  }

  lemma GetLists(p: Pool, k: Kind)
    requires Lists(p) && LinksOk(p.next, Of(p, k), k) && Can(p, GetOn(k))
    ensures Lists(GetOnce(p, k))
  {
    GetListOk(Of(p, k), k, p.next, p.flag);
    OnlyHere(p, k);
  }

  lemma GetAllLinks(p: Pool, k: Kind)
    requires Lists(p) && AllLinks(p) && Can(p, GetOn(k))
    ensures AllLinks(GetOnce(p, k))
  {
    var l := Of(p, k);
    GetLinks(l, k, p.next, p.flag);
    if l.get.Moved? {
      OtherLinks(p.next, Of(p, Other(k)), Other(k), l.m, None);
    }
  }

  /** Starting and ending a list's refill touches nothing but the thread's position. */
  lemma FillMoves(l: List, k: Kind, f: Fill)
    requires ListOk(l, k) && (l.fill.Away? || l.fill.Ending?) && (f.Away? || f.Test?)
    ensures ListOk(l.(fill := f), k)
  {
  }

  lemma FillLists(p: Pool, k: Kind, alloc: bool)
    requires Lists(p) && Can(p, FillOn(k, alloc))
    requires k == Small ==> p.cluster.fill.Away?
    ensures Lists(FillOnce(p, k, alloc))
  {
    var l := Of(p, k);
    if l.fill.Ending? {
      FillMoves(l, k, Away);
    } else {
      FillListOk(l, k, alloc);
      if k == Small {
        FillMoves(p.cluster, Cluster, Test);
      }
    }
  }

  lemma FillAllLinks(p: Pool, k: Kind, alloc: bool)
    requires Lists(p) && AllLinks(p) && Can(p, FillOn(k, alloc))
    requires k == Small ==> p.cluster.fill.Away?
    ensures AllLinks(FillOnce(p, k, alloc))
  {
    var l := Of(p, k);
    if !l.fill.Ending? {
      FillLinks(l, k, p.next, alloc);
      if Allocates(l, alloc) {
        OtherLinks(p.next, Of(p, Other(k)), Other(k), Node(k, l.made), None);
      } else if l.fill.Made? {
        OtherLinks(p.next, Of(p, Other(k)), Other(k), l.tail, Some(l.newPkt));
      }
    }
  }

  lemma EnterInv(p: Pool, k: Kind)
    requires Inv(p) && Can(p, Enter(k))
    ensures Inv(Do(p, Enter(k)))
  {
    var l := Of(p, k);
    var q := Do(p, Enter(k));
    assert Numbers(l.(get := Tested), k);
    assert LinksOk(p.next, l.(get := Tested), k);
    if k == Small {
      assert q.cluster == p.cluster;
    } else {
      assert q.small == p.small;
    }
  }

  lemma FireInv(p: Pool)
    requires Inv(p) && Can(p, Fire)
    ensures Inv(Do(p, Fire))
  {
    assert Numbers(p.small.(fill := Test), Small);
    assert LinksOk(p.next, p.small.(fill := Test), Small);
  }

  lemma GetOnInv(p: Pool, k: Kind)
    requires Inv(p) && Can(p, GetOn(k))
    ensures Inv(GetOnce(p, k))
  {
    GetLists(p, k);
    GetAllLinks(p, k);
    GetFlag(p, k);
  }

  lemma FillOnInv(p: Pool, k: Kind, alloc: bool)
    requires Inv(p) && Can(p, FillOn(k, alloc))
    ensures Inv(FillOnce(p, k, alloc))
  {
    FillLists(p, k, alloc);
    FillAllLinks(p, k, alloc);
    FillFlag(p, k, alloc);
  }

  lemma StepInv(p: Pool, step: Step)
    requires Inv(p) && Can(p, step)
    ensures Inv(Do(p, step))
  {
    match step
    case Alloc =>
    case Enter(k) => EnterInv(p, k);
    case GetOn(k) => GetOnInv(p, k);
    case Fire => FireInv(p);
    case FillOn(k, alloc) => FillOnInv(p, k, alloc);
  }

  lemma {:induction false} LinksKnown(k: Kind, n: nat, total: nat)
    requires n <= total
    ensures Known(Links(k, n, total), k, n) && Known(Links(k, n, total), Other(k), 0)
  {
    if n > 0 {
      LinksKnown(k, n - 1, total);
    }
  }

  lemma {:induction false} LinksAre(k: Kind, n: nat, total: nat, i: nat)
    requires i < n <= total
    ensures Node(k, i) in Links(k, n, total) && Links(k, n, total)[Node(k, i)] == Succ(k, i, total)
  {
    if i < n - 1 {
      LinksAre(k, n - 1, total, i);
    }
  }

  lemma LinksChained(k: Kind, n: nat)
    ensures Chained(Links(k, n, n), k, 0, n)
  {
    forall i: nat | i < n ensures Node(k, i) in Links(k, n, n) && Links(k, n, n)[Node(k, i)] == Succ(k, i, n) {
      LinksAre(k, n, n, i);
    }
  }

  /** Two heaps that share no packets keep their chains side by side. */
  lemma Together(a: Heap, b: Heap, k: Kind, n: nat, m: nat)
    requires Known(a, k, n) && Known(a, Other(k), 0) && Chained(a, k, 0, n)
    requires Known(b, Other(k), m) && Known(b, k, 0) && Chained(b, Other(k), 0, m)
    ensures Known(a + b, k, n) && Known(a + b, Other(k), m)
    ensures Chained(a + b, k, 0, n) && Chained(a + b, Other(k), 0, m)
  {
  }

  lemma InitInv(small: nat, cluster: nat)
    requires small > 0 && cluster > 0
    ensures Inv(Init(small, cluster))
  {
    LinksKnown(Small, small, small);
    LinksKnown(Cluster, cluster, cluster);
    LinksChained(Small, small);
    LinksChained(Cluster, cluster);
    Together(Links(Small, small, small), Links(Cluster, cluster, cluster), Small, small, cluster);
  }

  /** Every state of every interleaving satisfies the invariant. */
  lemma {:induction false} RunInv(p: Pool, steps: seq<Step>)
    requires Inv(p)
    ensures match RunFrom(p, steps) case None => true case Some(q) => Inv(q)
  {
    if steps != [] {
      RunInv(p, steps[..|steps| - 1]);
      var r := RunFrom(p, steps[..|steps| - 1]);
      if r.Some? && Can(r.value, steps[|steps| - 1]) {
        StepInv(r.value, steps[|steps| - 1]);
      }
    }
  }

  // ---------------------------------------------------------------- what every run keeps

  /** A state of some interleaving after initWithCapacity. */
  ghost predicate Reached(p: Pool, small: nat, cluster: nat, steps: seq<Step>) {
    small > 0 && cluster > 0 && RunFrom(Init(small, cluster), steps) == Some(p)
  }

  lemma ReachedInv(p: Pool, small: nat, cluster: nat, steps: seq<Step>)
    requires Reached(p, small, cluster, steps)
    ensures Inv(p)
  {
    InitInv(small, cluster);
    RunInv(Init(small, cluster), steps);
  }

  lemma ReachedList(p: Pool, small: nat, cluster: nat, steps: seq<Step>, k: Kind)
    requires Reached(p, small, cluster, steps)
    ensures ListOk(Of(p, k), k) && LinksOk(p.next, Of(p, k), k)
  {
    ReachedInv(p, small, cluster, steps);
  }

  /** What a reader that follows the links from x sees, up to `steps` links. */
  function Follow(next: Heap, x: Pkt, steps: nat): seq<Pkt>
    decreases steps
  {
    if steps == 0 || x !in next || next[x].None? then [x] else [x] + Follow(next, next[x].value, steps - 1)
  }

  lemma {:induction false} FollowChain(next: Heap, k: Kind, i: nat, made: nat, steps: nat)
    requires i < made <= i + steps + 1 && Chained(next, k, i, made)
    ensures |Follow(next, Node(k, i), steps)| == made - i
    ensures forall j :: 0 <= j < made - i ==> Follow(next, Node(k, i), steps)[j] == Node(k, i + j)
    decreases steps
  {
    assert Node(k, i) in next;
    if i + 1 < made {
      FollowChain(next, k, i + 1, made, steps - 1);
    }
  }

  /** The chain from the i-th packet on: distinct packets, the last of them without a link. */
  lemma ChainShape(next: Heap, k: Kind, i: nat, made: nat, steps: nat)
    requires i < made <= i + steps + 1 && Chained(next, k, i, made)
    ensures var f := Follow(next, Node(k, i), steps);
            && |f| == made - i && f[|f| - 1] == Node(k, made - 1)
            && (|f| > 1 ==> f[|f| - 2] == Node(k, made - 2))
            && (forall a, b :: 0 <= a < b < |f| ==> f[a] != f[b])
            && f[|f| - 1] in next && next[f[|f| - 1]] == None
  {
    FollowChain(next, k, i, made, steps);
    assert Node(k, made - 1) in next;
  }

  /** How far along the chain the tail pointer is from the end. */
  function Behind(l: List): nat {
    One(l.fill.Linked?)
  }

  lemma ListFollowed(l: List, next: Heap, k: Kind, far: nat)
    requires Numbers(l, k) && Chained(next, k, l.passed, l.made) && far + 1 >= l.made - l.passed
    ensures var f := Follow(next, l.head, far);
            && |f| == l.num + Leaving(l.get) + Arriving(l.fill)
            && |f| - 1 - Behind(l) >= 0 && l.tail == f[|f| - 1 - Behind(l)]
            && (forall i, j :: 0 <= i < j < |f| ==> f[i] != f[j])
            && f[|f| - 1] in next && next[f[|f| - 1]] == None
  {
    ChainShape(next, k, l.passed, l.made, far);
  }

  /** Following the links from the head visits every packet of the list once and stops at
      the tail, or one packet after it while refillPool is between its two writes.  The
      counter is that length, less the packets being unlinked or linked. */
  lemma ListIsChain(p: Pool, small: nat, cluster: nat, steps: seq<Step>, k: Kind, far: nat)
    requires Reached(p, small, cluster, steps) && far + 1 >= Of(p, k).made - Of(p, k).passed
    ensures var l, f := Of(p, k), Follow(p.next, Of(p, k).head, far);
            && |f| == l.num + Leaving(l.get) + Arriving(l.fill)
            && |f| - 1 - Behind(l) >= 0 && l.tail == f[|f| - 1 - Behind(l)]
            && (forall i, j :: 0 <= i < j < |f| ==> f[i] != f[j])
            && f[|f| - 1] in p.next && p.next[f[|f| - 1]] == None
  {
    ReachedList(p, small, cluster, steps, k);
    ListFollowed(Of(p, k), p.next, k, far);
  }

  /** The counters stay between 1 and the capacity. */
  lemma CountInRange(p: Pool, small: nat, cluster: nat, steps: seq<Step>, k: Kind)
    requires Reached(p, small, cluster, steps)
    ensures 1 <= Of(p, k).num <= Of(p, k).capacity
  {
    ReachedInv(p, small, cluster, steps);
  }

  /** Packets getPacket is using in list k. */
  function InUse(l: List): seq<Pkt> {
    match l.get
    case NotHere => []
    case Tested => [l.head]
    case Counted => [l.head]
    case _ => [l.m]
  }

  /** Neither thread writes the link of a packet the other one is using: when refillPool is
      about to write behind the tail, getPacket is not working on that packet and has not
      given it away; when getPacket is about to cut off m, m is neither the tail, nor the
      packet being added, nor on the chain. */
  lemma NoSharedPacket(p: Pool, small: nat, cluster: nat, steps: seq<Step>, k: Kind, j: Kind, far: nat)
    requires Reached(p, small, cluster, steps)
    ensures Of(p, k).fill.Made? ==>
              && Of(p, k).tail !in InUse(Of(p, j)) && Of(p, k).tail !in Of(p, j).handed
              && Of(p, k).tail !in p.direct
    ensures Of(p, j).get.Moved? ==>
              && Of(p, j).m != Of(p, k).tail && (Of(p, k).fill.Made? ==> Of(p, j).m != Of(p, k).newPkt)
              && Of(p, j).m !in Follow(p.next, Of(p, k).head, far)
  {
    ReachedInv(p, small, cluster, steps);
    assert LinksOk(p.next, Of(p, k), k);
    assert ListOk(Of(p, k), k) && ListOk(Of(p, j), j) && DirectOk(p.direct);
    TailNotInUse(Of(p, k), k, Of(p, j), j, p.direct);
    CutNotOnChain(Of(p, k), k, Of(p, j), j, p.next, far);
  }

  lemma TailNotInUse(l: List, k: Kind, o: List, j: Kind, direct: seq<Pkt>)
    requires ListOk(l, k) && ListOk(o, j) && (k == j ==> l == o) && DirectOk(direct)
    ensures l.fill.Made? ==> l.tail !in InUse(o) && l.tail !in o.handed && l.tail !in direct
  {
  }

  lemma CutNotOnChain(l: List, k: Kind, o: List, j: Kind, next: Heap, far: nat)
    requires Numbers(l, k) && Numbers(o, j) && (k == j ==> l == o) && Chained(next, k, l.passed, l.made)
    ensures o.get.Moved? ==>
              && o.m != l.tail && (l.fill.Made? ==> o.m != l.newPkt)
              && o.m !in Follow(next, l.head, far)
  {
    FollowStays(next, k, l.passed, l.made, far);
  }

  lemma {:induction false} FollowStays(next: Heap, k: Kind, i: nat, made: nat, steps: nat)
    requires i < made && Chained(next, k, i, made)
    ensures forall x :: x in Follow(next, Node(k, i), steps) ==> x.Node? && x.kind == k && i <= x.serial < made
    decreases steps
  {
    assert Node(k, i) in next;
    if i + 1 < made && steps > 0 {
      FollowStays(next, k, i + 1, made, steps - 1);
    }
  }

  /** Everything getPacket has returned. */
  function Returned(p: Pool): seq<Pkt> {
    p.small.handed + p.cluster.handed + p.direct
  }

  /** What getPacket has cut off or handed out stays linked to nothing. */
  ghost predicate Unlinked(next: Heap, l: List, k: Kind) {
    forall i: nat {:trigger Node(k, i) in next} {:trigger next[Node(k, i)]} ::
      i < l.passed - (if l.get.Moved? then 1 else 0) ==> Node(k, i) in next && next[Node(k, i)] == None
  }

  lemma GetUnlinked(l: List, k: Kind, next: Heap, flag: bool)
    requires Numbers(l, k) && LinksOk(next, l, k) && Unlinked(next, l, k) && !l.get.NotHere?
    requires l.get.Took? ==> l.m in next && next[l.m].Some?
    ensures Unlinked(if l.get.Moved? then next[l.m := None] else next, GetList(l, next, flag), k)
  {
  }

  lemma FillUnlinked(l: List, k: Kind, next: Heap, alloc: bool)
    requires Numbers(l, k) && LinksOk(next, l, k) && Unlinked(next, l, k) && !l.fill.Away? && !l.fill.Ending?
    ensures Unlinked(FillHeap(next, l, k, alloc), FillList(l, k, alloc), k)
  {
  }

  lemma OtherUnlinked(next: Heap, l: List, k: Kind, x: Pkt, v: Option<Pkt>)
    requires Unlinked(next, l, k) && x.Node? && x.kind != k
    ensures Unlinked(next[x := v], l, k)
  {
  }

  lemma GetOnUnlinked(p: Pool, j: Kind, k: Kind)
    requires Lists(p) && AllLinks(p) && Can(p, GetOn(j)) && Unlinked(p.next, Of(p, k), k)
    ensures Unlinked(GetOnce(p, j).next, Of(GetOnce(p, j), k), k)
  {
    var l := Of(p, j);
    if j == k {
      GetUnlinked(l, k, p.next, p.flag);
    } else if l.get.Moved? {
      OtherUnlinked(p.next, Of(p, k), k, l.m, None);
    }
  }

  lemma FillOnUnlinked(p: Pool, j: Kind, alloc: bool, k: Kind)
    requires Lists(p) && AllLinks(p) && Can(p, FillOn(j, alloc)) && Unlinked(p.next, Of(p, k), k)
    ensures Unlinked(FillOnce(p, j, alloc).next, Of(FillOnce(p, j, alloc), k), k)
  {
    var l := Of(p, j);
    if !l.fill.Ending? {
      if j == k {
        FillUnlinked(l, k, p.next, alloc);
      } else if Allocates(l, alloc) {
        OtherUnlinked(p.next, Of(p, k), k, Node(j, l.made), None);
      } else if l.fill.Made? {
        OtherUnlinked(p.next, Of(p, k), k, l.tail, Some(l.newPkt));
      }
    }
  }

  lemma StepUnlinked(p: Pool, step: Step, k: Kind)
    requires Inv(p) && Can(p, step) && Unlinked(p.next, Of(p, k), k)
    ensures Unlinked(Do(p, step).next, Of(Do(p, step), k), k)
  {
    match step
    case GetOn(j) => GetOnUnlinked(p, j, k);
    case FillOn(j, alloc) => FillOnUnlinked(p, j, alloc, k);
    case _ =>
  }

  lemma {:induction false} RunUnlinked(p: Pool, small: nat, cluster: nat, steps: seq<Step>, k: Kind)
    requires Reached(p, small, cluster, steps)
    ensures Unlinked(p.next, Of(p, k), k)
    decreases |steps|
  {
    if steps != [] {
      var before := steps[..|steps| - 1];
      var q := RunFrom(Init(small, cluster), before).value;
      RunUnlinked(q, small, cluster, before, k);
      ReachedInv(q, small, cluster, before);
      StepUnlinked(q, steps[|steps| - 1], k);
    }
  }

  /** A packet of the pool that getPacket has returned is linked to nothing, then and later. */
  lemma HandedUnlinked(p: Pool, small: nat, cluster: nat, steps: seq<Step>, k: Kind, i: nat)
    requires Reached(p, small, cluster, steps) && i < |Of(p, k).handed|
    ensures Of(p, k).handed[i] in p.next && p.next[Of(p, k).handed[i]] == None
  {
    RunUnlinked(p, small, cluster, steps, k);
    ReachedList(p, small, cluster, steps, k);
    assert Of(p, k).handed[i] == Node(k, i);
    assert i < Of(p, k).passed - InHand(Of(p, k).get);
  }

  /** A refill works on the plain list first and goes on to the cluster list when that is full; it
      ends when an allocation fails or the cluster list is full. */
  lemma RefillGoesOn(p: Pool, small: nat, cluster: nat, steps: seq<Step>, k: Kind, alloc: bool)
    requires Reached(p, small, cluster, steps) && Can(p, FillOn(k, alloc)) && Of(p, k).fill.Test?
    ensures var l, q := Of(p, k), FillOnce(p, k, alloc);
            && (l.num < l.capacity && alloc ==> Of(q, k).fill.Made?)
            && (l.num < l.capacity && !alloc ==> Of(q, k).fill.Ending?)
            && (l.num >= l.capacity && k == Small ==> q.small.fill.Away? && q.cluster.fill.Test?)
            && (l.num >= l.capacity && k == Cluster ==> q.cluster.fill.Ending?)
  {
  }

  /** No packet is handed out twice. */
  lemma HandedOnce(p: Pool, small: nat, cluster: nat, steps: seq<Step>, i: nat, j: nat)
    requires Reached(p, small, cluster, steps) && i < j < |Returned(p)|
    ensures Returned(p)[i] != Returned(p)[j]
  {
    ReachedInv(p, small, cluster, steps);
  }

  lemma PacketPlaced(l: List, next: Heap, x: Pkt, far: nat)
    requires x.Node? && ListOk(l, x.kind) && LinksOk(next, l, x.kind) && x in next
    requires far + 1 >= l.made - l.passed
    ensures || x in l.handed
            || (InHand(l.get) == 1 && x == l.m)
            || x in Follow(next, l.head, far)
            || (l.fill.Made? && x == l.newPkt)
  {
    FollowChain(next, x.kind, l.passed, l.made, far);
    assert x == Node(x.kind, x.serial);
    if x.serial < |l.handed| {
      assert l.handed[x.serial] == x;
    } else if l.passed <= x.serial < l.made {
      assert Follow(next, l.head, far)[x.serial - l.passed] == x;
    }
  }

  /** No packet is lost: each one allocated for the pool was handed out, is being handed out,
      is on its list's chain, or is about to be linked. */
  lemma NoneLost(p: Pool, small: nat, cluster: nat, steps: seq<Step>, x: Pkt, far: nat)
    requires Reached(p, small, cluster, steps) && x in p.next && x.Node?
    requires far + 1 >= Of(p, x.kind).made - Of(p, x.kind).passed
    ensures var l := Of(p, x.kind);
            || x in l.handed
            || (InHand(l.get) == 1 && x == l.m)
            || x in Follow(p.next, l.head, far)
            || (l.fill.Made? && x == l.newPkt)
  {
    ReachedList(p, small, cluster, steps, x.kind);
    PacketPlaced(Of(p, x.kind), p.next, x, far);
  }

  /** refillScheduled counts the refills: at most one is about to be scheduled, scheduled or
      running, so a list never has two producers. */
  lemma OneRefill(p: Pool, small: nat, cluster: nat, steps: seq<Step>)
    requires Reached(p, small, cluster, steps)
    ensures Refills(p) == One(p.flag)
    ensures p.small.fill.Away? || p.cluster.fill.Away?
    ensures !p.flag ==> p.pending == 0 && p.small.fill.Away? && p.cluster.fill.Away?
  {
    ReachedInv(p, small, cluster, steps);
  }

  /** A call that returns a packet of the pool either saw enough packets left in its list, or
      leaves exactly one refill scheduled or running. */
  lemma LowMeansRefill(p: Pool, small: nat, cluster: nat, steps: seq<Step>, k: Kind)
    requires Reached(p, small, cluster, steps) && Can(p, GetOn(k)) && Of(GetOnce(p, k), k).get.NotHere?
    ensures var q := GetOnce(p, k);
            || (Of(p, k).get.Cut? && Of(p, k).num >= Of(p, k).capacity - Of(p, k).capacity / 2)
            || (q.flag && q.pending + One(!q.small.fill.Away?) + One(!q.cluster.fill.Away?) == 1)
  {
    ReachedInv(p, small, cluster, steps);
    GetFlag(p, k);
  }

  /** getPacket never waits for the other thread: every one of its steps can be taken. */
  lemma GetNeverStuck(p: Pool, small: nat, cluster: nat, steps: seq<Step>, k: Kind)
    requires Reached(p, small, cluster, steps) && !Of(p, k).get.NotHere?
    ensures Can(p, GetOn(k))
  {
    ReachedInv(p, small, cluster, steps);
    if Of(p, k).get.Took? {
      NeverTheLast(Of(p, k), p.next, k);
    }
  }
}
