/**
 The receive buffer pool as the object the driver calls: two lists of mbufs linked through
 their nextpkt fields, filled by initWithCapacity and refillPool and drained by getPacket.
 What the allocator returns is a parameter: a packet, or null when it has none.
 */
module RxBuffers {

  type Bytes = seq<bv8>

  /** The packet header: what mbuf_copy_pkthdr copies, and the pointer to the protocol header. */
  datatype Header = Header(fields: nat, header: nat)

  class Mbuf {
    var nextpkt: Mbuf?
    var data: Bytes
    var pkthdr: Header

    constructor (data: Bytes, pkthdr: Header)
      ensures nextpkt == null && this.data == data && this.pkthdr == pkthdr
    {
      nextpkt := null;
      this.data, this.pkthdr := data, pkthdr;
    }
  }

  /** The packets of s are different objects. */
  ghost predicate Distinct(s: seq<Mbuf>) {
    forall i, j :: 0 <= i < j < |s| ==> s[i] != s[j]
  }

  ghost predicate Apart(a: seq<Mbuf>, b: seq<Mbuf>) {
    forall x :: x in a ==> x !in b
  }

  /** Packets fresh from the allocator: different, and linked to nothing. */
  ghost predicate Supply(s: seq<Mbuf>)
    reads s
  {
    Distinct(s) && forall i :: 0 <= i < |s| ==> s[i].nextpkt == null
  }

  /** xPktHead, xPktTail, xPktNum, xCapacity and xRefillTresh for one kind of packet. */
  class PacketList {
    var head: Mbuf?
    var tail: Mbuf?
    var num: nat
    var capacity: nat
    var threshold: nat
    ghost var chain: seq<Mbuf>

    constructor ()
      ensures Valid() && chain == []
    {
      head, tail, num, capacity, threshold := null, null, 0, 0, 0;
      chain := [];
    }

    /** Empty, with room for `capacity` packets. */
    method Reset(capacity: nat)
      modifies this
      ensures Valid() && chain == [] && this.capacity == capacity && threshold == capacity - capacity / 2
    {
      head, tail, num := null, null, 0;
      this.capacity, threshold := capacity, capacity - capacity / 2;
      chain := [];
    }

    /** mbuf_freem_list. */
    method FreeAll()
      modifies this
      ensures Valid() && chain == [] && capacity == old(capacity) && threshold == old(threshold)
    {
      head, tail, num := null, null, 0;
      chain := [];
    }

    ghost predicate Valid()
      reads this, chain
    {
      && num == |chain|
      && Distinct(chain)
      && (if chain == [] then head == null && tail == null
          else head == chain[0] && tail == chain[|chain| - 1])
      && forall i {:trigger chain[i].nextpkt} :: 0 <= i < |chain| ==> chain[i].nextpkt == After(i)
    }

    ghost function After(i: nat): Mbuf?
      reads this
      requires i < |chain|
    {
      if i + 1 < |chain| then chain[i + 1] else null
    }

    method Append(m: Mbuf)
      requires Valid() && m !in chain && m.nextpkt == null
      modifies this, chain
      ensures Valid() && chain == old(chain) + [m] && capacity == old(capacity) && threshold == old(threshold)
      ensures forall x :: x in old(chain) ==> x.data == old(x.data)
    {
      if head != null {
        tail.nextpkt := m;
        tail := m;
        num := num + 1;
      } else {
        head, tail := m, m;
        num := 1;
      }
      chain := chain + [m];
    }

    /** Unlink the first packet unless it is the only one. */
    method TakeFirst() returns (m: Mbuf?)
      requires Valid()
      modifies this, chain
      ensures Valid() && capacity == old(capacity) && threshold == old(threshold)
      ensures old(num) <= 1 ==> m == null && chain == old(chain)
      ensures old(num) > 1 ==> m == old(chain[0]) && m.nextpkt == null && chain == old(chain[1..])
      ensures forall x :: x in old(chain) ==> x.data == old(x.data)
    {
      m := null;
      if num > 1 {
        num := num - 1;
        m := head;
        head := m.nextpkt;
        m.nextpkt := null;
        chain := chain[1..];
      }
    }
  }

  class LucyRxPool {
    const small: PacketList
    const cluster: PacketList
    var maxCopySize: nat
    var refillScheduled: bool
    ghost var scheduled: nat       // calls of thread_call_enter_delayed

    constructor ()
      ensures Valid() && fresh(small) && fresh(cluster)
      ensures small.chain == [] && cluster.chain == [] && !refillScheduled
    {
      small := new PacketList();
      cluster := new PacketList();
      maxCopySize, refillScheduled, scheduled := 0, false, 0;
    }

    ghost predicate Valid()
      reads this, small, cluster, small.chain, cluster.chain
    {
      && small != cluster && small.Valid() && cluster.Valid()
      && Apart(small.chain, cluster.chain)
    }

    /** The list a request of this size is served from. */
    function Serving(size: nat): PacketList
      reads this
    {
      if size > maxCopySize then cluster else small
    }

    /** Taking a packet from one list leaves the other alone. */
    static method TakeBeside(l: PacketList, ghost o: PacketList) returns (m: Mbuf?)
      requires l != o && l.Valid() && o.Valid() && Apart(l.chain, o.chain)
      modifies l, l.chain
      ensures l.Valid() && o.Valid() && Apart(l.chain, o.chain) && l.threshold == old(l.threshold)
      ensures old(|l.chain|) <= 1 ==> m == null && l.chain == old(l.chain)
      ensures old(|l.chain|) > 1 ==>
                && m == old(l.chain[0]) && m.nextpkt == null && m !in l.chain && m !in o.chain
                && l.chain == old(l.chain[1..])
    {
      assert forall i :: 0 <= i < |o.chain| ==> o.chain[i] in o.chain && o.chain[i] !in l.chain;
      m := l.TakeFirst();
      assert forall i :: 0 <= i < |o.chain| ==> o.chain[i].nextpkt == old(o.chain[i].nextpkt);
    }

    /** Take the first packet of list l but never its last, and ask for a refill when the
        list gets low and none is on its way. */
    method Serve(l: PacketList, ghost o: PacketList) returns (m: Mbuf?)
      requires l != o && l.Valid() && o.Valid() && Apart(l.chain, o.chain)
      modifies `refillScheduled, `scheduled, l, l.chain
      ensures l.Valid() && o.Valid() && Apart(l.chain, o.chain) && l.threshold == old(l.threshold)
      ensures old(|l.chain|) <= 1 ==>
                && m == null && l.chain == old(l.chain)
                && refillScheduled == old(refillScheduled) && scheduled == old(scheduled)
      ensures old(|l.chain|) > 1 ==>
                && m == old(l.chain[0]) && m.nextpkt == null && m !in l.chain && m !in o.chain
                && l.chain == old(l.chain[1..])
                && refillScheduled == (old(refillScheduled) || |l.chain| < l.threshold)
                && scheduled == old(scheduled) + if refillScheduled && !old(refillScheduled) then 1 else 0
    {
      m := TakeBeside(l, o);
      if m != null {
        if l.num < l.threshold && !refillScheduled {
          refillScheduled := true;
          scheduled := scheduled + 1;
        }
      }
    }

    /** Allocate, or take the packet from the list that serves this size. */
    method GetPacket(size: nat, got: Mbuf?) returns (m: Mbuf?)
      requires Valid()
      modifies `refillScheduled, `scheduled, Serving(size), Serving(size).chain
      ensures Valid()
      ensures got != null ==> m == got
      ensures got != null || old(|Serving(size).chain|) <= 1 ==>
                && Serving(size).chain == old(Serving(size).chain)
                && refillScheduled == old(refillScheduled) && scheduled == old(scheduled)
      ensures got == null && old(|Serving(size).chain|) <= 1 ==> m == null
      ensures got == null && old(|Serving(size).chain|) > 1 ==>
                var l := Serving(size);
                && m == old(l.chain[0]) && m.nextpkt == null && m !in small.chain && m !in cluster.chain
                && l.chain == old(l.chain[1..])
                && refillScheduled == (old(refillScheduled) || |l.chain| < l.threshold)
                && scheduled == old(scheduled) + if refillScheduled && !old(refillScheduled) then 1 else 0
      // A packet larger than maxCopySize comes from the cluster list, any other from the plain one.
      ensures got == null && size > maxCopySize && old(|cluster.chain|) > 1 ==>
                m == old(cluster.chain[0]) && cluster.chain == old(cluster.chain[1..])
      ensures got == null && size <= maxCopySize && old(|small.chain|) > 1 ==>
                m == old(small.chain[0]) && small.chain == old(small.chain[1..])
      ensures size > maxCopySize ==> small.chain == old(small.chain) && small.num == old(small.num)
      ensures size <= maxCopySize ==> cluster.chain == old(cluster.chain) && cluster.num == old(cluster.num)
      ensures got == null && old(if size > maxCopySize then |cluster.chain| else |small.chain|) <= 1 ==> m == null
    {
      m := got;
      if m == null {
        if size > maxCopySize {
          m := Serve(cluster, small);
        } else {
          m := Serve(small, cluster);
        }
      }
    }

    /** The packets of `supply` that refilling this list uses: what fits, as far as they go. */
    static function Used(supply: nat, num: nat, capacity: nat): nat {
      if num + supply <= capacity then supply else if num <= capacity then capacity - num else 0
    }

    /** Append packets from the supply until the list is full or the allocator fails. */
    static method RefillList(l: PacketList, supply: seq<Mbuf>) returns (used: nat, failed: bool)
      requires l.Valid() && Supply(supply) && Apart(supply, l.chain)
      modifies l, l.chain, supply
      ensures l.Valid() && l.capacity == old(l.capacity) && l.threshold == old(l.threshold)
      ensures used == Used(|supply|, old(l.num), l.capacity)
      ensures l.chain == old(l.chain) + supply[..used]
      ensures failed <==> old(l.num) + |supply| < l.capacity
      ensures Supply(supply[used..])
      ensures if failed then used == |supply|
              else if old(l.num) <= l.capacity then l.num == l.capacity else used == 0
    {
      used, failed := 0, false;
      while l.num < l.capacity && !failed
        invariant l.Valid() && l.capacity == old(l.capacity) && l.threshold == old(l.threshold)
        invariant used <= |supply| && l.chain == old(l.chain) + supply[..used]
        invariant forall i :: used <= i < |supply| ==> supply[i] !in l.chain
        invariant used > 0 ==> l.num <= l.capacity
        invariant failed ==> used == |supply| && l.num < l.capacity
        invariant forall i :: used <= i < |supply| ==> supply[i].nextpkt == null
        decreases |supply| - used, if failed then 0 else 1
      {
        if used < |supply| {
          l.Append(supply[used]);
          used := used + 1;
        } else {
          failed := true;
        }
      }
    }

    /** Refilling one list leaves the other alone. */
    static method RefillBeside(l: PacketList, supply: seq<Mbuf>, ghost o: PacketList)
      returns (used: nat, failed: bool)
      requires l != o && l.Valid() && o.Valid() && Supply(supply)
      requires Apart(l.chain, o.chain) && Apart(supply, l.chain) && Apart(supply, o.chain)
      modifies l, l.chain, supply
      ensures l.Valid() && o.Valid() && Apart(l.chain, o.chain)
      ensures l.capacity == old(l.capacity) && l.threshold == old(l.threshold)
      ensures used == Used(|supply|, old(l.num), l.capacity)
      ensures l.chain == old(l.chain) + supply[..used]
      ensures failed <==> old(l.num) + |supply| < l.capacity
      ensures Supply(supply[used..]) && Apart(supply[used..], l.chain) && Apart(supply[used..], o.chain)
    {
      assert forall i :: 0 <= i < |o.chain| ==> o.chain[i] !in l.chain && o.chain[i] !in supply;
      used, failed := RefillList(l, supply);
      assert forall i :: 0 <= i < |o.chain| ==> o.chain[i].nextpkt == old(o.chain[i].nextpkt);
    }

    /** Fill up the plain list, then the cluster list; the first failed allocation ends it. */
    method FillBoth(supply: seq<Mbuf>) returns (used: nat, failed: bool)
      requires Valid() && Supply(supply)
      requires Apart(supply, small.chain) && Apart(supply, cluster.chain)
      modifies small, cluster, small.chain, cluster.chain, supply
      ensures Valid()
      ensures small.capacity == old(small.capacity) && cluster.capacity == old(cluster.capacity)
      ensures small.threshold == old(small.threshold) && cluster.threshold == old(cluster.threshold)
      ensures var a := Used(|supply|, old(small.num), small.capacity);
              && small.chain == old(small.chain) + supply[..a]
              && (old(small.num) + |supply| < small.capacity ==>
                    failed && used == a && cluster.chain == old(cluster.chain))
              && (old(small.num) + |supply| >= small.capacity ==>
                    && used == a + Used(|supply| - a, old(cluster.num), cluster.capacity)
                    && cluster.chain == old(cluster.chain) + supply[a..used]
                    && (failed <==> old(cluster.num) + |supply| - a < cluster.capacity))
    {
      used, failed := RefillBeside(small, supply, cluster);
      if !failed {
        var rest := supply[used..];
        var more;
        more, failed := RefillBeside(cluster, rest, small);
        assert rest[..more] == supply[used..used + more];
        used := used + more;
      }
    }

    /** Clearing the flag is the last thing a refill does. */
    method RefillPool(supply: seq<Mbuf>) returns (used: nat)
      requires Valid() && Supply(supply)
      requires Apart(supply, small.chain) && Apart(supply, cluster.chain)
      modifies `refillScheduled, small, cluster, small.chain, cluster.chain, supply
      ensures Valid() && !refillScheduled
      ensures small.capacity == old(small.capacity) && cluster.capacity == old(cluster.capacity)
      ensures var a := Used(|supply|, old(small.num), small.capacity);
              && small.chain == old(small.chain) + supply[..a]
              && (old(small.num) + |supply| < small.capacity ==> used == a && cluster.chain == old(cluster.chain))
              && (old(small.num) + |supply| >= small.capacity ==>
                    && used == a + Used(|supply| - a, old(cluster.num), cluster.capacity)
                    && cluster.chain == old(cluster.chain) + supply[a..used])
      // With packets enough both lists end up full.
      ensures old(small.num) <= small.capacity && old(cluster.num) <= cluster.capacity
              && old(small.num) + old(cluster.num) + |supply| >= small.capacity + cluster.capacity
              ==> small.num == small.capacity && cluster.num == cluster.capacity
    {
      var failed;
      used, failed := FillBoth(supply);
      refillScheduled := false;
    }

    /** Allocate both lists full; a failure frees whatever was allocated. */
    method InitWithCapacity(mbufCapacity: nat, clustCapacity: nat, copySize: nat, timer: bool, supply: seq<Mbuf>)
      returns (ok: bool)
      requires Valid() && small.chain == [] && cluster.chain == [] && Supply(supply)
      modifies this, small, cluster, supply
      ensures Valid()
      ensures ok <==> mbufCapacity > 0 && clustCapacity > 0 && timer && |supply| >= mbufCapacity + clustCapacity
      ensures ok ==> && small.chain == supply[..mbufCapacity]
                     && cluster.chain == supply[mbufCapacity..mbufCapacity + clustCapacity]
                     && small.capacity == mbufCapacity && cluster.capacity == clustCapacity
                     && small.threshold == mbufCapacity - mbufCapacity / 2
                     && cluster.threshold == clustCapacity - clustCapacity / 2
                     && maxCopySize == copySize && !refillScheduled
      ensures !ok ==> small.chain == [] && cluster.chain == []
    {
      ok := false;
      if mbufCapacity > 0 && clustCapacity > 0 {
        small.Reset(mbufCapacity);
        cluster.Reset(clustCapacity);
        maxCopySize, refillScheduled := copySize, false;
        if timer {
          var used, failed := FillBoth(supply);
          if failed {
            cluster.FreeAll();
            small.FreeAll();
          } else {
            ok := true;
          }
        }
      }
    }

    /** Either hand over the ring's packet and put a new one in its place, or copy it. */
    method ReplaceOrCopyPacket(mp: Mbuf?, len: nat, got: Mbuf?) returns (m: Mbuf?, mp': Mbuf?, replaced: bool)
      requires Valid() && (mp != null && len <= maxCopySize ==> len <= |mp.data|)
      requires mp != null ==> mp !in small.chain && mp !in cluster.chain && mp != got
      requires got != null ==> got !in small.chain && got !in cluster.chain
      modifies `refillScheduled, `scheduled, Serving(len), Serving(len).chain, got
      ensures Valid() && (mp == null ==> m == null && mp' == null)
      ensures mp != null ==> replaced == (len > maxCopySize)
      ensures var served := got != null || old(|Serving(len).chain|) > 1;
              var spare: Mbuf? := if got != null then got else if served then old(Serving(len).chain[0]) else null;
              mp != null ==>
                && (!served ==> m == null && mp' == mp)
                && (served && replaced ==> m == mp && mp' == spare)
                && (served && !replaced ==> m == spare && mp' == mp)
                && (served && !replaced ==> m.data == mp.data[..len] && m.pkthdr == mp.pkthdr.(header := 0))
      ensures mp != null ==> mp.data == old(mp.data) && mp.pkthdr == old(mp.pkthdr)
      // With nothing from the allocator, the ring's new packet is the first of the cluster list,
      // and the copy is made into the first of the plain list.
      ensures mp != null && got == null && len > maxCopySize && old(|cluster.chain|) > 1 ==>
                m == mp && mp' == old(cluster.chain[0])
      ensures mp != null && got == null && len <= maxCopySize && old(|small.chain|) > 1 ==>
                m == old(small.chain[0]) && mp' == mp
    {
      m, mp', replaced := null, mp, false;
      if mp != null {
        var p := GetPacket(len, got);
        if len > maxCopySize {
          replaced := true;
          if p != null {
            m, mp' := mp, p;
          }
        } else {
          m := p;
          if p != null {
            p.pkthdr := mp.pkthdr;
            p.pkthdr := p.pkthdr.(header := 0);
            p.data := mp.data[..len];
          }
        }
      }
    }
  }
}
