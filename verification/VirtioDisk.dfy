/** The virtio block driver's split ring (Virtio 1.1, sections 2.6 and 5.2). Driver calls run under one
    lock; the device takes requests in order and completes them in any order, at any time between
    driver steps. Ring indices are 16-bit and wrap. */
module VirtioDisk {
  import opened Basics

  const NUM: nat := 8
  const WRAP: nat := 65536

  /** What a descriptor points at. */
  datatype Area = Nothing | Request(head: nat) | Data(b: nat) | Status(head: nat)

  /** A descriptor: chained (VRING_DESC_F_NEXT), device-writable (VRING_DESC_F_WRITE), next. */
  datatype Desc = Desc(area: Area, len: nat, chained: bool, writable: bool, next: nat)

  const NO_DESC: Desc := Desc(Nothing, 0, false, false, 0)

  datatype Op = Op(write: bool, sector: nat)

  datatype Info = Info(b: Option<nat>, status: nat)

  /** The other two descriptors of a chain. */
  datatype Chain = Chain(data: nat, status: nat)

  /** The three-part layout section 5.2 prescribes: request header, data, one status byte. */
  ghost predicate Formatted(desc: seq<Desc>, ops: seq<Op>, h: nat, c: Chain, b: nat, blockno: nat, write: bool) {
    && |desc| == NUM && |ops| == NUM && h < NUM && c.data < NUM && c.status < NUM
    && desc[h] == Desc(Request(h), 16, true, false, c.data)
    && desc[c.data] == Desc(Data(b), 1024, true, !write, c.status)
    && desc[c.status] == Desc(Status(h), 1, false, true, 0)
    && ops[h] == Op(write, blockno * 2)
  }

  /** A command as the device makes it out of a chain: what to do, where on disk, with which buffer, and
      whose status byte to write. */
  datatype Command = Command(write: bool, sector: nat, buffer: nat, status: nat)

  /** The device's reading of the chain at `h`, by the layout of section 5.2: it follows the links and
      checks each part; None if the chain is no block request. */
  function DeviceReads(desc: seq<Desc>, ops: seq<Op>, h: nat): Option<Command> {
    if h < |desc| && desc[h].area.Request? && desc[h].len == 16 && desc[h].chained && !desc[h].writable
       && desc[h].area.head < |ops| && desc[h].next < |desc|
    then
      var op, d := ops[desc[h].area.head], desc[desc[h].next];
      if d.area.Data? && d.len == 1024 && d.chained && d.writable == !op.write && d.next < |desc| then
        var s := desc[d.next];
        if s.area.Status? && s.len == 1 && !s.chained && s.writable
        then Some(Command(op.write, op.sector, d.area.b, s.area.head)) else None
      else None
    else None
  }

  /** What was asked for in each request: block and direction. */
  datatype Asked = Asked(blockno: nat, write: bool)

  /** Every request on its way still reads as it was asked. */
  ghost predicate Readable(desc: seq<Desc>, ops: seq<Op>, k: Book, asked: map<nat, Asked>) {
    && asked.Keys == k.reqs.Keys == k.chains.Keys
    && forall h :: h in k.reqs ==>
         Formatted(desc, ops, h, k.chains[h], k.reqs[h].b, asked[h].blockno, asked[h].write)
  }

  /** The device makes out exactly the request that was submitted. */
  lemma DeviceReadsRequest(desc: seq<Desc>, ops: seq<Op>, k: Book, asked: map<nat, Asked>, h: nat)
    requires Readable(desc, ops, k, asked) && h in k.reqs
    ensures h in asked
    ensures DeviceReads(desc, ops, h) == Some(Command(asked[h].write, asked[h].blockno * 2, k.reqs[h].b, h))
  {
    assert Formatted(desc, ops, h, k.chains[h], k.reqs[h].b, asked[h].blockno, asked[h].write);
  }

  lemma StillFormatted(desc: seq<Desc>, ops: seq<Op>, desc': seq<Desc>, ops': seq<Op>, h: nat, c: Chain, b: nat,
                       q: Asked,
                       mine: set<nat>)
    requires Formatted(desc, ops, h, c, b, q.blockno, q.write) && Untouched(desc, desc', mine)
    requires h !in mine && c.data !in mine && c.status !in mine && h < |ops| == |ops'| && ops'[h] == ops[h]
    ensures Formatted(desc', ops', h, c, b, q.blockno, q.write)
  {
  }

  lemma OwnChain(desc: seq<Desc>, free: seq<bool>, chains: map<nat, Chain>, own: map<nat, nat>, g: nat)
    requires ChainsOk(desc, free, chains, own) && g in chains
    ensures g in own && own[g] == g && chains[g].data in own && own[chains[g].data] == g
    ensures chains[g].status in own && own[chains[g].status] == g
  {
    assert ChainOk(desc, g, chains[g], own);
    assert g in Members(g, chains[g]) && chains[g].data in Members(g, chains[g])
        && chains[g].status in Members(g, chains[g]);
  }

  lemma FreeUnowned(desc: seq<Desc>, free: seq<bool>, chains: map<nat, Chain>, own: map<nat, nat>, x: nat)
    requires ChainsOk(desc, free, chains, own) && x < NUM && free[x]
    ensures x !in own
  {
  }

  lemma SubmitReadable(desc: seq<Desc>, free: seq<bool>, ops: seq<Op>, k: Book, asked: map<nat, Asked>,
                       desc': seq<Desc>, ops': seq<Op>, h: nat, c: Chain, b: nat, q: Asked)
    requires Readable(desc, ops, k, asked) && ChainsOk(desc, free, k.chains, k.own) && |free| == NUM
    requires h < NUM && c.data < NUM && c.status < NUM && free[h] && free[c.data] && free[c.status]
    requires Untouched(desc, desc', Members(h, c)) && |ops| == |ops'| == NUM && ops' == ops[h := ops'[h]]
    requires Formatted(desc', ops', h, c, b, q.blockno, q.write)
    ensures Readable(desc', ops', AddReq(k, h, c, b), asked[h := q])
  {
    hide Formatted, Untouched, ChainsOk;
    FreeUnowned(desc, free, k.chains, k.own, h);
    FreeUnowned(desc, free, k.chains, k.own, c.data);
    FreeUnowned(desc, free, k.chains, k.own, c.status);
    forall g | g in k.reqs
      ensures g != h && Formatted(desc', ops', g, k.chains[g], k.reqs[g].b, asked[g].blockno, asked[g].write)
    {
      OwnChain(desc, free, k.chains, k.own, g);
      assert Formatted(desc, ops, g, k.chains[g], k.reqs[g].b, asked[g].blockno, asked[g].write);
      OpKept(desc, ops, ops', g, k.chains[g], k.reqs[g].b, asked[g], h);
      StillFormatted(desc, ops, desc', ops', g, k.chains[g], k.reqs[g].b, asked[g], Members(h, c));
    }
  }

  lemma OpKept(desc: seq<Desc>, ops: seq<Op>, ops': seq<Op>, g: nat, c: Chain, b: nat, q: Asked, h: nat)
    requires Formatted(desc, ops, g, c, b, q.blockno, q.write) && g != h
    requires |ops| == |ops'| == NUM && h < NUM && ops' == ops[h := ops'[h]]
    ensures g < NUM && ops'[g] == ops[g]
  {
  }

  lemma BlankedElsewhere(desc: seq<Desc>, h: nat, c: Chain)
    requires |desc| == NUM && h < NUM && c.data < NUM && c.status < NUM
    ensures Untouched(desc, Blanked(desc, h, c), Members(h, c))
  {
  }

  lemma FinishReadable(desc: seq<Desc>, free: seq<bool>, ops: seq<Op>, k: Book, asked: map<nat, Asked>, h: nat)
    requires Readable(desc, ops, k, asked) && ChainsOk(desc, free, k.chains, k.own) && h in k.chains && |ops| == NUM
    requires |desc| == NUM && h < NUM && k.chains[h].data < NUM && k.chains[h].status < NUM
    ensures Readable(Blanked(desc, h, k.chains[h]), ops, Forget(k, h), asked - {h})
  {
    hide Formatted, Untouched, ChainsOk, Blanked;
    var desc' := Blanked(desc, h, k.chains[h]);
    BlankedElsewhere(desc, h, k.chains[h]);
    OwnChain(desc, free, k.chains, k.own, h);
    forall g | g in k.reqs && g != h
      ensures Formatted(desc', ops, g, k.chains[g], k.reqs[g].b, asked[g].blockno, asked[g].write)
    {
      OwnChain(desc, free, k.chains, k.own, g);
      assert Formatted(desc, ops, g, k.chains[g], k.reqs[g].b, asked[g].blockno, asked[g].write);
      OpKept(desc, ops, ops, g, k.chains[g], k.reqs[g].b, asked[g], h);
      StillFormatted(desc, ops, desc', ops, g, k.chains[g], k.reqs[g].b, asked[g], Members(h, k.chains[h]));
    }
  }

  /** `q[k]` stands in ring slot `(from + k) % NUM`, and the writer's index is just behind the last. */
  ghost predicate InRing(ring: seq<nat>, from: nat, to: nat, q: seq<nat>) {
    && |ring| == NUM && from < WRAP && to == (from + |q|) % WRAP && |q| <= NUM
    && forall k :: 0 <= k < |q| ==> ring[(from + k) % NUM] == q[k]
  }

  lemma Slots(x: nat, j: nat, k: nat)
    requires j < k < j + NUM
    ensures (x + j) % NUM != (x + k) % NUM
  {
  }

  /** A writer adds an entry without touching those not yet read, even as its index wraps. */
  lemma Push(ring: seq<nat>, from: nat, to: nat, q: seq<nat>, h: nat)
    requires InRing(ring, from, to, q) && |q| < NUM
    ensures InRing(ring[to % NUM := h], from, (to + 1) % WRAP, q + [h])
  {
    assert to % NUM == (from + |q|) % NUM;
    forall k | 0 <= k < |q|
      ensures ring[to % NUM := h][(from + k) % NUM] == q[k]
    {
      Slots(from, k, |q|);
    }
  }

  /** A reader takes the oldest entry. */
  lemma Pop(ring: seq<nat>, from: nat, to: nat, q: seq<nat>)
    requires InRing(ring, from, to, q) && from != to
    ensures q != [] && ring[from % NUM] == q[0] && InRing(ring, (from + 1) % WRAP, to, q[1..])
  {
    forall k | 0 <= k < |q| - 1
      ensures ring[((from + 1) % WRAP + k) % NUM] == q[1..][k]
    {
      assert ((from + 1) % WRAP + k) % NUM == (from + (k + 1)) % NUM;
    }
  }

  /** With fewer entries than WRAP the two indices meet exactly when the queue is empty. */
  lemma EmptyRing(ring: seq<nat>, from: nat, to: nat, q: seq<nat>)
    requires InRing(ring, from, to, q)
    ensures from == to <==> q == []
  {
  }

  /** Every descriptor is free or belongs to exactly one three-descriptor chain, which `own` names. */
  ghost predicate ChainsOk(desc: seq<Desc>, free: seq<bool>, chains: map<nat, Chain>, own: map<nat, nat>) {
    && |desc| == NUM && |free| == NUM
    && (forall i: nat :: i < NUM ==> (free[i] <==> i !in own) && (free[i] ==> desc[i] == NO_DESC))
    && (forall i :: i in own ==> i < NUM && own[i] in chains && i in Members(own[i], chains[own[i]]))
    && (forall h :: h in chains ==> ChainOk(desc, h, chains[h], own))
  }

  ghost function Members(h: nat, c: Chain): set<nat> { {h, c.data, c.status} }

  ghost predicate ChainOk(desc: seq<Desc>, h: nat, c: Chain, own: map<nat, nat>)
    requires |desc| == NUM
  {
    && h != c.data && h != c.status && c.data != c.status
    && (forall i :: i in Members(h, c) ==> i < NUM && i in own && own[i] == h)
    && desc[h].chained && desc[h].next == c.data
    && desc[c.data].chained && desc[c.data].next == c.status && !desc[c.status].chained
  }

  /** Where each request is: queued in the avail ring, taken by the device, reported in the used ring,
      or seen by the interrupt handler. */
  datatype Stages = Stages(queue: seq<nat>, flight: set<nat>, done: seq<nat>, seen: set<nat>)

  ghost predicate NoDup(q: seq<nat>) { forall j, k :: 0 <= j < k < |q| ==> q[j] != q[k] }

  ghost function Elems(q: seq<nat>): set<nat> { set h | h in q }

  /** Every chain is in exactly one stage. */
  ghost predicate StagesOk(st: Stages, heads: set<nat>) {
    && NoDup(st.queue) && NoDup(st.done)
    && Elems(st.queue) !! st.flight && Elems(st.queue) !! Elems(st.done) && Elems(st.queue) !! st.seen
    && st.flight !! Elems(st.done) && st.flight !! st.seen && Elems(st.done) !! st.seen
    && Elems(st.queue) + st.flight + Elems(st.done) + st.seen == heads
  }

  /** The request in each chain: its buffer and a number that is never used again. */
  datatype Req = Req(b: nat, id: nat)

  /** The history of requests: which numbers the device has completed, and in what order the handler
      released their buffers. */
  datatype Past = Past(next: nat, completed: set<nat>, released: seq<nat>)

  ghost predicate PastOk(p: Past, st: Stages, reqs: map<nat, Req>) {
    && (forall h :: h in reqs ==> reqs[h].id < p.next)
    && (forall h, g :: h in reqs && g in reqs && h != g ==> reqs[h].id != reqs[g].id && reqs[h].b != reqs[g].b)
    && (forall h :: h in reqs ==> (reqs[h].id in p.completed <==> h in st.done || h in st.seen))
    && (forall h :: h in reqs ==> (reqs[h].id in p.released <==> h in st.seen))
    && NoDup(p.released) && (forall i :: i in p.released ==> i in p.completed)
    && (forall i :: i in p.completed ==> i < p.next)
  }

  /** `b->disk` is 1 exactly while the request is on its way; a request that was handled had status 0. */
  ghost predicate BufsOk(st: Stages, reqs: map<nat, Req>, info: seq<Info>, busy: set<nat>) {
    && |info| == NUM
    && (forall h :: h in reqs ==> h < NUM && info[h].b == Some(reqs[h].b))
    && (forall h :: h in reqs ==> (reqs[h].b in busy <==> h !in st.seen))
    && (forall h :: h in reqs && h in st.seen ==> info[h].status == 0)
    && (forall b :: b in busy ==> exists h :: h in reqs && reqs[h].b == b)
  }

  ghost predicate Taken(free: seq<bool>, free': seq<bool>, mine: set<nat>) {
    |free'| == |free| == NUM && forall j: nat :: j < NUM ==> (free'[j] <==> free[j] && j !in mine)
  }

  ghost predicate Untouched(desc: seq<Desc>, desc': seq<Desc>, mine: set<nat>) {
    |desc'| == |desc| == NUM && forall j: nat :: j < NUM && j !in mine ==> desc'[j] == desc[j]
  }

  /** Three free descriptors become one more chain. */
  lemma AddChain(desc: seq<Desc>, free: seq<bool>, chains: map<nat, Chain>, own: map<nat, nat>,
                 desc': seq<Desc>, free': seq<bool>, h: nat, c: Chain)
    requires ChainsOk(desc, free, chains, own) && h < NUM && c.data < NUM && c.status < NUM
    requires h != c.data && h != c.status && c.data != c.status && free[h] && free[c.data] && free[c.status]
    requires Taken(free, free', Members(h, c)) && Untouched(desc, desc', Members(h, c))
    requires desc'[h].chained && desc'[h].next == c.data && desc'[c.data].chained && desc'[c.data].next == c.status
    requires !desc'[c.status].chained
    ensures h !in chains && ChainsOk(desc', free', chains[h := c], own[h := h][c.data := h][c.status := h])
  {
    hide ChainOk;
    var own', chains' := own[h := h][c.data := h][c.status := h], chains[h := c];
    FreeIsNoHead(desc, free, chains, own, h);
    forall g | g in chains
      ensures ChainOk(desc', g, chains[g], own')
    {
      KeepsChain(desc, desc', g, chains[g], own, own', Members(h, c));
    }
    NewChain(desc', h, c, own');
    forall i | i in own'
      ensures i < NUM && own'[i] in chains' && i in Members(own'[i], chains'[own'[i]])
    {
      if i !in Members(h, c) {
        assert i in own && own'[i] == own[i] != h;
      }
    }
  }

  lemma NewChain(desc: seq<Desc>, h: nat, c: Chain, own: map<nat, nat>)
    requires |desc| == NUM && h < NUM && c.data < NUM && c.status < NUM && h != c.data && h != c.status
    requires c.data != c.status
    requires desc[h].chained && desc[h].next == c.data && desc[c.data].chained && desc[c.data].next == c.status
    requires !desc[c.status].chained
    requires h in own && own[h] == h && c.data in own && own[c.data] == h && c.status in own && own[c.status] == h
    ensures ChainOk(desc, h, c, own)
  {
  }

  /** A chain does not notice what happens to descriptors that are not its own. */
  lemma KeepsChain(desc: seq<Desc>, desc': seq<Desc>, g: nat, c: Chain, own: map<nat, nat>, own': map<nat, nat>,
                   mine: set<nat>)
    requires |desc| == NUM && ChainOk(desc, g, c, own) && Untouched(desc, desc', mine)
    requires forall i :: i in own && own[i] == g ==> i !in mine && i in own' && own'[i] == g
    ensures ChainOk(desc', g, c, own')
  {
    assert g in Members(g, c) && c.data in Members(g, c) && c.status in Members(g, c);
  }

  lemma {:induction false} ElemsSize(q: seq<nat>)
    requires NoDup(q)
    ensures |Elems(q)| == |q|
  {
    if q != [] {
      var p := q[..|q| - 1];
      ElemsSize(p);
      assert Elems(q) == Elems(p) + {q[|q| - 1]};
    }
  }

  /** Distinct descriptor numbers, one of them not on the list: the list is not full. */
  lemma Room(q: seq<nat>, h: nat)
    requires NoDup(q) && h !in q && h < NUM && forall g :: g in q ==> g < NUM
    ensures |q| < NUM
  {
    ElemsSize(q);
    SubsetSize(Elems(q) + {h}, {0, 1, 2, 3, 4, 5, 6, 7});
  }

  lemma QueueRoom(desc: seq<Desc>, free: seq<bool>, chains: map<nat, Chain>, own: map<nat, nat>, st: Stages, h: nat)
    requires ChainsOk(desc, free, chains, own) && StagesOk(st, chains.Keys) && h < NUM && h !in chains
    ensures |st.queue| < NUM && |st.done| < NUM
  {
    forall g | g in st.queue
      ensures g < NUM && g != h
    {
      assert g in Elems(st.queue);
      assert ChainOk(desc, g, chains[g], own) && g in Members(g, chains[g]);
    }
    forall g | g in st.done
      ensures g < NUM && g != h
    {
      assert g in Elems(st.done);
      assert ChainOk(desc, g, chains[g], own) && g in Members(g, chains[g]);
    }
    Room(st.queue, h);
    Room(st.done, h);
  }

  lemma AddStage(st: Stages, heads: set<nat>, h: nat)
    requires StagesOk(st, heads) && h !in heads
    ensures StagesOk(st.(queue := st.queue + [h]), heads + {h}) && h !in st.done && h !in st.seen
  {
    assert h in st.done ==> h in Elems(st.done);
    assert Elems(st.queue + [h]) == Elems(st.queue) + {h};
    assert h !in Elems(st.queue);
  }

  lemma AddPast(p: Past, st: Stages, reqs: map<nat, Req>, h: nat, b: nat)
    requires PastOk(p, st, reqs) && h !in reqs && h !in st.done && h !in st.seen
    requires forall g :: g in reqs ==> reqs[g].b != b
    ensures PastOk(p.(next := p.next + 1), st.(queue := st.queue + [h]), reqs[h := Req(b, p.next)])
  {
  }

  lemma AddBuf(st: Stages, reqs: map<nat, Req>, info: seq<Info>, busy: set<nat>, h: nat, b: nat, id: nat)
    requires BufsOk(st, reqs, info, busy) && h !in reqs && h < NUM && h !in st.done && h !in st.seen
    requires forall g :: g in reqs ==> reqs[g].b != b
    ensures BufsOk(st.(queue := st.queue + [h]), reqs[h := Req(b, id)], info[h := Info(Some(b), 0xff)], busy + {b})
  {
    var reqs' := reqs[h := Req(b, id)];
    forall x | x in busy + {b}
      ensures exists g :: g in reqs' && reqs'[g].b == x
    {
      if x == b {
        assert reqs'[h].b == x;
      } else {
        var g :| g in reqs && reqs[g].b == x;
        assert reqs'[g].b == x;
      }
    }
  }

  lemma FreeIsNoHead(desc: seq<Desc>, free: seq<bool>, chains: map<nat, Chain>, own: map<nat, nat>, h: nat)
    requires ChainsOk(desc, free, chains, own) && h < NUM && free[h]
    ensures h !in chains
  {
    forall g | g in chains
      ensures g != h
    {
      assert ChainOk(desc, g, chains[g], own) && g in Members(g, chains[g]);
    }
  }

  /** All but the chain itself, for a request about to be queued at head `h`. */
  lemma BeforeAdd(desc: seq<Desc>, free: seq<bool>, chains: map<nat, Chain>, own: map<nat, nat>, st: Stages, p: Past,
                  reqs: map<nat, Req>,
                  info: seq<Info>, busy: set<nat>, h: nat, b: nat)
    requires ChainsOk(desc, free, chains, own) && StagesOk(st, chains.Keys) && PastOk(p, st, reqs)
    requires BufsOk(st, reqs, info, busy)
    requires reqs.Keys == chains.Keys && h < NUM && free[h] && forall g :: g in reqs ==> reqs[g].b != b
    ensures |st.queue| < NUM && h !in chains
    ensures StagesOk(st.(queue := st.queue + [h]), chains.Keys + {h})
    ensures PastOk(p.(next := p.next + 1), st.(queue := st.queue + [h]), reqs[h := Req(b, p.next)])
    ensures BufsOk(st.(queue := st.queue + [h]), reqs[h := Req(b, p.next)], info[h := Info(Some(b), 0xff)], busy + {b})
  {
    hide StagesOk, PastOk, BufsOk;
    FreeIsNoHead(desc, free, chains, own, h);
    AddStage(st, chains.Keys, h);
    AddPast(p, st, reqs, h, b);
    AddBuf(st, reqs, info, busy, h, b, p.next);
    QueueRoom(desc, free, chains, own, st, h);
  }

  /** The bookkeeping: chains, who owns each descriptor, the requests, their stages, the history. */
  datatype Book = Book(chains: map<nat, Chain>, own: map<nat, nat>, reqs: map<nat, Req>, st: Stages, past: Past)

  /** The shared rings: the driver's side and the device's. */
  datatype Rings = Rings(avail: seq<nat>, availIdx: nat, devAvailIdx: nat, used: seq<nat>, devUsedIdx: nat,
      usedIdx: nat)

  ghost predicate DiskOk(desc: seq<Desc>, free: seq<bool>, info: seq<Info>, busy: set<nat>, r: Rings, k: Book) {
    && k.reqs.Keys == k.chains.Keys
    && ChainsOk(desc, free, k.chains, k.own)
    && StagesOk(k.st, k.chains.Keys)
    && InRing(r.avail, r.devAvailIdx, r.availIdx, k.st.queue)
    && InRing(r.used, r.usedIdx, r.devUsedIdx, k.st.done)
    && PastOk(k.past, k.st, k.reqs)
    && BufsOk(k.st, k.reqs, info, busy)
  }

  /** The bookkeeping of one more request. */
  ghost function AddReq(k: Book, h: nat, c: Chain, b: nat): Book {
    Book(k.chains[h := c], k.own[h := h][c.data := h][c.status := h], k.reqs[h := Req(b, k.past.next)],
         k.st.(queue := k.st.queue + [h]), k.past.(next := k.past.next + 1))
  }

  lemma Submitted(desc: seq<Desc>, free: seq<bool>, info: seq<Info>, busy: set<nat>, r: Rings, k: Book,
                  desc': seq<Desc>, free': seq<bool>, h: nat, c: Chain, b: nat)
    requires DiskOk(desc, free, info, busy, r, k) && forall g :: g in k.reqs ==> k.reqs[g].b != b
    requires |free| == |desc'| == |r.avail| == |info| == NUM && h < NUM && c.data < NUM && c.status < NUM
    requires h != c.data && h != c.status && c.data != c.status && free[h] && free[c.data] && free[c.status]
    requires Taken(free, free', Members(h, c)) && Untouched(desc, desc', Members(h, c))
    requires desc'[h].chained && desc'[h].next == c.data && desc'[c.data].chained && desc'[c.data].next == c.status
    requires !desc'[c.status].chained
    ensures h !in k.chains
    ensures DiskOk(desc', free', info[h := Info(Some(b), 0xff)], busy + {b},
                   r.(avail := r.avail[r.availIdx % NUM := h], availIdx := (r.availIdx + 1) % WRAP), AddReq(k, h, c, b))
  {
    hide ChainsOk, StagesOk, InRing, PastOk, BufsOk, Taken, Untouched;
    BeforeAdd(desc, free, k.chains, k.own, k.st, k.past, k.reqs, info, busy, h, b);
    AddChain(desc, free, k.chains, k.own, desc', free', h, c);
    Push(r.avail, r.devAvailIdx, r.availIdx, k.st.queue, h);
    assert k.chains[h := c].Keys == k.chains.Keys + {h};
    assert k.reqs[h := Req(b, k.past.next)].Keys == k.reqs.Keys + {h};
  }

  lemma ChainsPart(desc: seq<Desc>, free: seq<bool>, info: seq<Info>, busy: set<nat>, r: Rings, k: Book)
    requires DiskOk(desc, free, info, busy, r, k)
    ensures ChainsOk(desc, free, k.chains, k.own)
  {
  }

  lemma QueuedIsRequest(desc: seq<Desc>, free: seq<bool>, info: seq<Info>, busy: set<nat>, r: Rings, k: Book, h: nat)
    requires DiskOk(desc, free, info, busy, r, k) && h in k.st.queue
    ensures h in k.reqs
  {
    hide ChainsOk, InRing, PastOk, BufsOk;
    assert h in Elems(k.st.queue);
  }

  lemma Lengths(desc: seq<Desc>, free: seq<bool>, info: seq<Info>, busy: set<nat>, r: Rings, k: Book)
    requires DiskOk(desc, free, info, busy, r, k)
    ensures |desc| == |free| == |info| == |r.avail| == |r.used| == NUM
    ensures forall i :: 0 <= i < NUM && free[i] ==> desc[i] == NO_DESC
  {
  }

  lemma PopElems(q: seq<nat>)
    requires q != [] && NoDup(q)
    ensures NoDup(q[1..]) && Elems(q[1..]) == Elems(q) - {q[0]} && q[0] in Elems(q)
  {
    assert forall x :: x in q <==> x == q[0] || x in q[1..];
  }

  lemma Fetched(desc: seq<Desc>, free: seq<bool>, info: seq<Info>, busy: set<nat>, r: Rings, k: Book, h: nat)
    requires DiskOk(desc, free, info, busy, r, k) && r.devAvailIdx != r.availIdx && |r.avail| == NUM
    requires h == r.avail[r.devAvailIdx % NUM]
    ensures k.st.queue != [] && h == k.st.queue[0]
    ensures DiskOk(desc, free, info, busy, r.(devAvailIdx := (r.devAvailIdx + 1) % WRAP),
                   k.(st := k.st.(queue := k.st.queue[1..], flight := k.st.flight + {h})))
  {
    hide ChainsOk, InRing;
    Pop(r.avail, r.devAvailIdx, r.availIdx, k.st.queue);
    PopElems(k.st.queue);
  }

  ghost function Complete(k: Book, h: nat): Book
    requires h in k.reqs
  {
    k.(st := k.st.(flight := k.st.flight - {h}, done := k.st.done + [h]),
       past := k.past.(completed := k.past.completed + {k.reqs[h].id}))
  }

  lemma Completed(desc: seq<Desc>, free: seq<bool>, info: seq<Info>, busy: set<nat>, r: Rings, k: Book, h: nat,
                  status: nat)
    requires DiskOk(desc, free, info, busy, r, k) && h in k.st.flight && |info| == |r.used| == NUM
    ensures h in k.reqs && h < NUM
    ensures DiskOk(desc, free, info[h := info[h].(status := status)], busy,
                   r.(used := r.used[r.devUsedIdx % NUM := h], devUsedIdx := (r.devUsedIdx + 1) % WRAP), Complete(k, h))
  {
    hide ChainsOk, InRing, StagesOk, PastOk, BufsOk;
    HeadsBelow(desc, free, k.chains, k.own);
    CompleteStage(k.st, k.chains.Keys, h);
    CompletePast(k, h);
    NotSeen(k.st, k.chains.Keys, h);
    CompleteBufs(k, h, info, busy, status);
    Push(r.used, r.usedIdx, r.devUsedIdx, k.st.done, h);
  }

  lemma CompleteStage(st: Stages, heads: set<nat>, h: nat)
    requires StagesOk(st, heads) && h in st.flight && forall g :: g in heads ==> g < NUM
    ensures h in heads && |st.done| < NUM && StagesOk(st.(flight := st.flight - {h}, done := st.done + [h]), heads)
  {
    assert h !in Elems(st.done);
    assert forall g :: g in st.done ==> g in Elems(st.done);
    Room(st.done, h);
    assert Elems(st.done + [h]) == Elems(st.done) + {h};
  }

  lemma CompletePast(k: Book, h: nat)
    requires PastOk(k.past, k.st, k.reqs) && h in k.reqs
    ensures PastOk(Complete(k, h).past, Complete(k, h).st, k.reqs)
  {
  }

  lemma NotSeen(st: Stages, heads: set<nat>, h: nat)
    requires StagesOk(st, heads) && h in st.flight
    ensures h !in st.seen
  {
  }

  lemma CompleteBufs(k: Book, h: nat, info: seq<Info>, busy: set<nat>, status: nat)
    requires BufsOk(k.st, k.reqs, info, busy) && h in k.reqs && h < NUM && h !in k.st.seen
    ensures BufsOk(Complete(k, h).st, k.reqs, info[h := info[h].(status := status)], busy)
  {
  }

  lemma HeadsBelow(desc: seq<Desc>, free: seq<bool>, chains: map<nat, Chain>, own: map<nat, nat>)
    requires ChainsOk(desc, free, chains, own)
    ensures forall h :: h in chains ==> h < NUM
  {
    forall h | h in chains
      ensures h < NUM
    {
      assert ChainOk(desc, h, chains[h], own) && h in Members(h, chains[h]);
    }
  }

  ghost function Release(k: Book, h: nat): Book
    requires h in k.reqs && k.st.done != []
  {
    k.(st := k.st.(done := k.st.done[1..], seen := k.st.seen + {h}),
        past := k.past.(released := k.past.released + [k.reqs[h].id]))
  }

  lemma Released(desc: seq<Desc>, free: seq<bool>, info: seq<Info>, busy: set<nat>, r: Rings, k: Book, h: nat)
    requires DiskOk(desc, free, info, busy, r, k) && r.usedIdx != r.devUsedIdx && |info| == |r.used| == NUM
    requires h == r.used[r.usedIdx % NUM]
    ensures k.st.done != [] && h == k.st.done[0] && h in k.reqs && h < NUM && info[h].b == Some(k.reqs[h].b)
    ensures k.reqs[h].id in k.past.completed && k.reqs[h].id !in k.past.released && k.reqs[h].b in busy
    ensures info[h].status == 0 ==>
      DiskOk(desc, free, info, busy - {k.reqs[h].b}, r.(usedIdx := (r.usedIdx + 1) % WRAP), Release(k, h))
  {
    hide ChainsOk, InRing, StagesOk, PastOk, BufsOk;
    Pop(r.used, r.usedIdx, r.devUsedIdx, k.st.done);
    HeadsBelow(desc, free, k.chains, k.own);
    ReleaseStage(k.st, k.chains.Keys, h);
    ReleasePast(k, h);
    ReleaseBufs(k, h, info, busy);
  }

  lemma ReleaseStage(st: Stages, heads: set<nat>, h: nat)
    requires StagesOk(st, heads) && st.done != [] && h == st.done[0]
    ensures h in heads && h !in st.seen && StagesOk(st.(done := st.done[1..], seen := st.seen + {h}), heads)
    ensures forall g :: g in st.done[1..] || g in st.seen + {h} <==> g in st.done || g in st.seen
  {
    PopElems(st.done);
    assert forall x :: x in st.done <==> x == h || x in st.done[1..];
  }

  lemma ReleasePast(k: Book, h: nat)
    requires PastOk(k.past, k.st, k.reqs) && h in k.reqs && k.st.done != [] && h == k.st.done[0] && h !in k.st.seen
    requires forall g :: g in k.st.done[1..] || g in k.st.seen + {h} <==> g in k.st.done || g in k.st.seen
    ensures k.reqs[h].id in k.past.completed && k.reqs[h].id !in k.past.released
    ensures PastOk(Release(k, h).past, Release(k, h).st, k.reqs)
  {
  }

  lemma ReleaseBufs(k: Book, h: nat, info: seq<Info>, busy: set<nat>)
    requires BufsOk(k.st, k.reqs, info, busy) && PastOk(k.past, k.st, k.reqs)
    requires h in k.reqs && k.st.done != [] && h == k.st.done[0] && h !in k.st.seen
    requires forall g :: g in k.st.done[1..] || g in k.st.seen + {h} <==> g in k.st.done || g in k.st.seen
    ensures h < NUM && info[h].b == Some(k.reqs[h].b) && k.reqs[h].b in busy
    ensures info[h].status == 0 ==> BufsOk(Release(k, h).st, k.reqs, info, busy - {k.reqs[h].b})
  {
  }

  lemma SameRequests(k: Book, h: nat)
    requires h in k.reqs && k.st.done != []
    ensures Release(k, h).reqs == k.reqs && Release(k, h).chains == k.chains
  {
  }

  lemma DoneIsWhatIsLeft(desc: seq<Desc>, free: seq<bool>, info: seq<Info>, busy: set<nat>, r: Rings, k: Book)
    requires DiskOk(desc, free, info, busy, r, k)
    ensures r.usedIdx == r.devUsedIdx <==> k.st.done == []
  {
    EmptyRing(r.used, r.usedIdx, r.devUsedIdx, k.st.done);
  }

  lemma ReleaseShrinks(k: Book)
    requires k.st.done != [] && k.st.done[0] in k.reqs
    ensures |Release(k, k.st.done[0]).st.done| == |k.st.done| - 1
    ensures forall h :: h in Release(k, k.st.done[0]).st.done ==> h in k.st.done
  {
  }

  ghost function Blanked(desc: seq<Desc>, h: nat, c: Chain): seq<Desc>
    requires |desc| == NUM && h < NUM && c.data < NUM && c.status < NUM
  {
    desc[h := NO_DESC][c.data := NO_DESC][c.status := NO_DESC]
  }

  ghost function Opened(free: seq<bool>, h: nat, c: Chain): seq<bool>
    requires |free| == NUM && h < NUM && c.data < NUM && c.status < NUM
  {
    free[h := true][c.data := true][c.status := true]
  }

  ghost function Forget(k: Book, h: nat): Book
    requires h in k.chains
  {
    k.(chains := k.chains - {h}, own := k.own - Members(h, k.chains[h]), reqs := k.reqs - {h},
        st := k.st.(seen := k.st.seen - {h}))
  }

  lemma Finished(desc: seq<Desc>, free: seq<bool>, info: seq<Info>, busy: set<nat>, r: Rings, k: Book, h: nat)
    requires DiskOk(desc, free, info, busy, r, k) && |desc| == |free| == |info| == NUM && h in k.reqs
    requires k.reqs[h].b !in busy
    ensures h in k.chains && h < NUM && k.chains[h].data < NUM && k.chains[h].status < NUM && h in k.st.seen
    ensures k.reqs[h].id in k.past.completed && k.reqs[h].id in k.past.released
    ensures DiskOk(Blanked(desc, h, k.chains[h]), Opened(free, h, k.chains[h]), info[h := info[h].(b := None)], busy,
        r, Forget(k, h))
  {
    hide ChainsOk, InRing, StagesOk, PastOk, BufsOk;
    SeenOne(k, h, info, busy);
    DropChain(desc, free, k.chains, k.own, h);
    DropStage(k.st, k.chains.Keys, h);
    DropPast(k, h);
    DropBuf(k, h, info, busy);
    assert (k.chains - {h}).Keys == k.chains.Keys - {h} && (k.reqs - {h}).Keys == k.reqs.Keys - {h};
  }

  lemma SeenOne(k: Book, h: nat, info: seq<Info>, busy: set<nat>)
    requires PastOk(k.past, k.st, k.reqs) && BufsOk(k.st, k.reqs, info, busy) && h in k.reqs && k.reqs[h].b !in busy
    ensures h in k.st.seen && k.reqs[h].id in k.past.completed && k.reqs[h].id in k.past.released
  {
  }

  lemma DropChain(desc: seq<Desc>, free: seq<bool>, chains: map<nat, Chain>, own: map<nat, nat>, h: nat)
    requires ChainsOk(desc, free, chains, own) && h in chains
    ensures h < NUM && chains[h].data < NUM && chains[h].status < NUM
    ensures ChainsOk(Blanked(desc, h, chains[h]), Opened(free, h, chains[h]), chains - {h}, own - Members(h, chains[h]))
  {
    hide ChainOk;
    var c := chains[h];
    ChainFacts(desc, h, c, own);
    var desc', free', own' := Blanked(desc, h, c), Opened(free, h, c), own - Members(h, c);
    forall g | g in chains && g != h
      ensures ChainOk(desc', g, chains[g], own')
    {
      KeepsChain(desc, desc', g, chains[g], own, own', Members(h, c));
    }
    assert forall i: nat :: i < NUM && i !in Members(h, c) ==> desc'[i] == desc[i] && free'[i] == free[i];
  }

  lemma ChainFacts(desc: seq<Desc>, h: nat, c: Chain, own: map<nat, nat>)
    requires |desc| == NUM && ChainOk(desc, h, c, own)
    ensures h < NUM && c.data < NUM && c.status < NUM && h != c.data && h != c.status && c.data != c.status
    ensures forall i :: i in Members(h, c) ==> i in own && own[i] == h
  {
    assert h in Members(h, c) && c.data in Members(h, c) && c.status in Members(h, c);
  }

  lemma DropStage(st: Stages, heads: set<nat>, h: nat)
    requires StagesOk(st, heads) && h in st.seen
    ensures StagesOk(st.(seen := st.seen - {h}), heads - {h})
  {
  }

  lemma DropPast(k: Book, h: nat)
    requires PastOk(k.past, k.st, k.reqs) && h in k.reqs
    ensures PastOk(k.past, k.st.(seen := k.st.seen - {h}), k.reqs - {h})
  {
  }

  lemma DropBuf(k: Book, h: nat, info: seq<Info>, busy: set<nat>)
    requires BufsOk(k.st, k.reqs, info, busy) && h in k.reqs && h < NUM && k.reqs[h].b !in busy
    ensures BufsOk(k.st.(seen := k.st.seen - {h}), k.reqs - {h}, info[h := info[h].(b := None)], busy)
  {
    var reqs' := k.reqs - {h};
    forall x | x in busy
      ensures exists g :: g in reqs' && reqs'[g].b == x
    {
      var g :| g in k.reqs && k.reqs[g].b == x;
      assert g in reqs' && reqs'[g].b == x;
    }
  }

  class Disk {
    var desc: seq<Desc>
    var free: seq<bool>
    var ops: seq<Op>
    var info: seq<Info>
    var rings: Rings
    var busy: set<nat>         // buffers with `b->disk == 1`
    ghost var book: Book
    ghost var asked: map<nat, Asked>

    /** After `virtio_disk_init`: everything is free and both rings are empty. */
    constructor ()
      ensures Valid() && book.chains == map[] && forall i :: 0 <= i < NUM ==> free[i]
    {
      desc, free := seq(NUM, _ => NO_DESC), seq(NUM, _ => true);
      ops, info := seq(NUM, _ => Op(false, 0)), seq(NUM, _ => Info(None, 0));
      rings := Rings(seq(NUM, _ => 0), 0, 0, seq(NUM, _ => 0), 0, 0);
      busy, book := {}, Book(map[], map[], map[], Stages([], {}, [], {}), Past(0, {}, []));
      asked := map[];
    }

    ghost predicate Valid()
      reads this
    {
      |ops| == NUM && DiskOk(desc, free, info, busy, rings, book) && Readable(desc, ops, book, asked)
    }

    /** `alloc_desc`: the first free descriptor. */
    method AllocDesc() returns (i: int)
      requires |free| == NUM
      modifies this`free
      ensures i == -1 ==> free == old(free) && forall j :: 0 <= j < NUM ==> !free[j]
      ensures i != -1 ==>
        && 0 <= i < NUM && old(free)[i] && free == old(free)[i := false] && forall j :: 0 <= j < i ==> !old(free)[j]
    {
      i := 0;
      while i < NUM
        invariant 0 <= i <= NUM && free == old(free) && forall j :: 0 <= j < i ==> !free[j]
      {
        if free[i] {
          free := free[i := false];
          return;
        }
        i := i + 1;
      }
      i := -1;
    }

    /** `free_desc`. */
    method FreeDesc(i: nat) returns (panicked: bool)
      requires |free| == NUM && |desc| == NUM
      modifies this`free, this`desc
      ensures panicked <==> i >= NUM || old(free)[i]
      ensures panicked ==> free == old(free) && desc == old(desc)
      ensures !panicked ==> free == old(free)[i := true] && desc == old(desc)[i := NO_DESC]
    {
      if i >= NUM || free[i] {
        return true;
      }
      desc := desc[i := NO_DESC];
      free := free[i := true];
      panicked := false;
    }

    /** The roll-back of `alloc3_desc`. */
    method GiveBack(idx: seq<nat>) returns (panicked: bool)
      requires |free| == NUM && |desc| == NUM
      requires forall k :: 0 <= k < |idx| ==> idx[k] < NUM && !free[idx[k]] && desc[idx[k]] == NO_DESC
      requires forall j, k :: 0 <= j < k < |idx| ==> idx[j] < idx[k]
      modifies this`free, this`desc
      ensures !panicked && desc == old(desc) && |free| == NUM
      ensures forall j :: 0 <= j < NUM ==> (free[j] <==> old(free)[j] || j in idx)
    {
      panicked := false;
      var k := 0;
      while k < |idx|
        invariant 0 <= k <= |idx| && !panicked && desc == old(desc) && |free| == NUM
        invariant forall j :: 0 <= j < NUM ==> (free[j] <==> old(free)[j] || j in idx[..k])
      {
        assert idx[k] !in idx[..k];
        panicked := FreeDesc(idx[k]);
        assert idx[..k + 1] == idx[..k] + [idx[k]];
        k := k + 1;
      }
      assert idx[..k] == idx;
    }

    /** `alloc3_desc`: three different free descriptors, or none taken at all. */
    method Alloc3() returns (ok: bool, idx: seq<nat>, panicked: bool)
      requires |free| == NUM && |desc| == NUM && forall i :: 0 <= i < NUM && free[i] ==> desc[i] == NO_DESC
      modifies this`free, this`desc
      ensures !panicked && desc == old(desc) && |free| == NUM
      ensures !ok ==> free == old(free) && AtMostTwo(free)
      ensures ok ==> Three(idx) && Taken(old(free), free, {idx[0], idx[1], idx[2]})
      ensures ok ==> old(free)[idx[0]] && old(free)[idx[1]] && old(free)[idx[2]]
    {
      idx, panicked := [], false;
      var i := 0;
      while i < 3
        invariant 0 <= i <= 3 && |idx| == i && !panicked && desc == old(desc) && |free| == NUM
        invariant forall k :: 0 <= k < i ==> idx[k] < NUM && old(free)[idx[k]]
        invariant forall j, k :: 0 <= j < k < i ==> idx[j] < idx[k]
        invariant forall j :: 0 <= j < NUM ==> (free[j] <==> old(free)[j] && j !in idx)
        invariant forall j, k :: 0 <= k < i && 0 <= j <= idx[k] && old(free)[j] ==> j in idx
      {
        var d := AllocDesc();
        if d < 0 {
          TwoOnly(old(free), idx);
          panicked := GiveBack(idx);
          assert free == old(free);
          return false, idx, panicked;
        }
        idx := idx + [d];
        i := i + 1;
      }
      ok := true;
    }

    /** The part of `virtio_disk_rw` that fills in the three descriptors. */
    method Format(head: nat, d: nat, s: nat, b: nat, blockno: nat, write: bool)
      requires |desc| == NUM && |ops| == NUM && |info| == NUM && Three([head, d, s])
      modifies this`desc, this`ops, this`info, this`busy
      ensures Formatted(desc, ops, head, Chain(d, s), b, blockno, write) && |ops| == NUM
      ensures Untouched(old(desc), desc, {head, d, s})
      ensures ops == old(ops)[head := ops[head]]
      ensures info == old(info)[head := Info(Some(b), 0xff)] && busy == old(busy) + {b}
    {
      ops := ops[head := Op(write, blockno * 2)];
      desc := desc[head := Desc(Request(head), 16, true, false, d)];
      desc := desc[d := Desc(Data(b), 1024, true, !write, s)];
      desc := desc[s := Desc(Status(head), 1, false, true, 0)];
      info := info[head := Info(Some(b), 0xff)];
      busy := busy + {b};
    }

    /** `virtio_disk_rw` up to its wait: take three descriptors, format them, publish the head. When
        fewer than three are free the caller sleeps and nothing has changed. */
    method Submit(b: nat, blockno: nat, write: bool) returns (ok: bool, head: nat, panicked: bool)
      requires Valid() && forall h :: h in book.reqs ==> book.reqs[h].b != b
      modifies this
      ensures Valid() && !panicked
      ensures !ok ==>
        && AtMostTwo(free) && unchanged(this`free, this`rings, this`info, this`busy, this`book, this`asked)
        && desc == old(desc)
      ensures ok ==>
        && head !in old(book.chains) && head in book.chains && book == AddReq(old(book), head, book.chains[head], b)
      ensures ok ==> asked == old(asked)[head := Asked(blockno, write)] && b in busy
      ensures ok ==> DeviceReads(desc, ops, head) == Some(Command(write, blockno * 2, b, head))
    {
      hide DiskOk, AtMostTwo, Taken, Untouched, AddReq, Readable, Formatted, DeviceReads;
      ghost var free0, desc0, info0, busy0, ops0 := free, desc, info, busy, ops;
      ChainsPart(desc, free, info, busy, rings, book);
      Lengths(desc, free, info, busy, rings, book);
      var idx;
      ok, idx, panicked := Alloc3();
      head := 0;
      if !ok {
        return;
      }
      head := idx[0];
      Format(head, idx[1], idx[2], b, blockno, write);
      ghost var c := Chain(idx[1], idx[2]);
      assert Members(head, c) == {idx[0], idx[1], idx[2]};
      Submitted(desc0, free0, info0, busy0, rings, book, desc, free, head, c, b);
      rings := rings.(avail := rings.avail[rings.availIdx % NUM := head], availIdx := (rings.availIdx + 1) % WRAP);
      Added(book, head, c, b);
      SubmitReadable(desc0, free0, ops0, book, asked, desc, ops, head, c, b, Asked(blockno, write));
      book, asked := AddReq(book, head, c, b), asked[head := Asked(blockno, write)];
      DeviceReadsRequest(desc, ops, book, asked, head);
    }

    /** The device takes the oldest published request. */
    method DeviceTake() returns (h: nat)
      requires Valid() && rings.devAvailIdx != rings.availIdx
      modifies this`rings, this`book
      ensures Valid() && old(book.st.queue) != [] && h == old(book.st.queue)[0]
      ensures book == old(book).(st :=
          old(book.st).(queue := old(book.st.queue)[1..], flight := old(book.st.flight) + {h}))
      ensures h in book.reqs && h in asked
      ensures DeviceReads(desc, ops, h) == Some(Command(asked[h].write, asked[h].blockno * 2, book.reqs[h].b, h))
    {
      hide DiskOk, Formatted, DeviceReads;
      Lengths(desc, free, info, busy, rings, book);
      h := rings.avail[rings.devAvailIdx % NUM];
      Fetched(desc, free, info, busy, rings, book, h);
      QueuedIsRequest(desc, free, info, busy, rings, book, h);
      rings := rings.(devAvailIdx := (rings.devAvailIdx + 1) % WRAP);
      book := book.(st := book.st.(queue := book.st.queue[1..], flight := book.st.flight + {h}));
      DeviceReadsRequest(desc, ops, book, asked, h);
    }

    /** The device finishes any request it has taken: status first, then the used ring. A status other
        than 0 reports a failure. */
    method DeviceComplete(h: nat, status: nat)
      requires Valid() && h in book.st.flight
      modifies this`rings, this`info, this`book
      ensures Valid() && h in old(book.reqs)
      ensures book == old(book).(st :=
          old(book.st).(flight := old(book.st.flight) - {h}, done := old(book.st.done) + [h]),
                                 past := old(book.past).(completed := old(book.past.completed)
                                     + {old(book.reqs)[h].id}))
      ensures |old(info)| == NUM && h < NUM && info == old(info)[h := old(info)[h].(status := status)]
    {
      hide DiskOk, Formatted;
      Lengths(desc, free, info, busy, rings, book);
      Completed(desc, free, info, busy, rings, book, h, status);
      info := info[h := info[h].(status := status)];
      rings := rings.(used := rings.used[rings.devUsedIdx % NUM := h], devUsedIdx := (rings.devUsedIdx + 1) % WRAP);
      book := Complete(book, h);
    }

    /** One turn of the loop in `virtio_disk_intr`: release the buffer of the oldest completion, or panic
        if the device reported a failure. */
    method IntrOne() returns (panicked: bool, b: nat)
      requires Valid() && rings.usedIdx != rings.devUsedIdx
      modifies this`rings, this`busy, this`book
      ensures Valid() && old(book.st.done) != [] && old(book.st.done)[0] in old(book.reqs)
      ensures old(book.st.done)[0] < NUM == |info| && (panicked <==> info[old(book.st.done)[0]].status != 0)
      ensures panicked ==> unchanged(this)
      ensures var h := old(book.st.done)[0]; var q := old(book.reqs)[h];
              !panicked ==>
                && b == q.b && q.id in old(book.past.completed) && q.id !in old(book.past.released)
                && b in old(busy) && busy == old(busy) - {b} && book == Release(old(book), h)
    {
      hide DiskOk, Release, Formatted;
      Lengths(desc, free, info, busy, rings, book);
      var id := rings.used[rings.usedIdx % NUM];
      Released(desc, free, info, busy, rings, book, id);
      b := 0;
      if info[id].status != 0 {
        return true, b;
      }
      panicked, b := false, info[id].b.value;
      busy := busy - {b};
      rings := rings.(usedIdx := (rings.usedIdx + 1) % WRAP);
      SameRequests(book, id);
      book := Release(book, id);
    }

    /** `virtio_disk_intr`: every completion reported so far is handled, up to the first failure, which is
        a panic. */
    method Intr() returns (panicked: bool)
      requires Valid()
      modifies this`rings, this`busy, this`book
      ensures Valid() && (!panicked ==> book.st.done == [])
      ensures panicked ==> book.st.done != [] && book.st.done[0] < |info| && info[book.st.done[0]].status != 0
      ensures (forall h :: h in old(book.st.done) && h < |info| ==> info[h].status == 0) ==> !panicked
      ensures forall h :: h in book.st.done ==> h in old(book.st.done)
    {
      hide DiskOk, Release, Readable;
      panicked := false;
      DoneIsWhatIsLeft(desc, free, info, busy, rings, book);
      while rings.usedIdx != rings.devUsedIdx
        invariant Valid() && (rings.usedIdx == rings.devUsedIdx <==> book.st.done == [])
        invariant forall h :: h in book.st.done ==> h in old(book.st.done)
        decreases |book.st.done|
      {
        ghost var before := book;
        var b;
        panicked, b := IntrOne();
        if panicked {
          assert before.st.done[0] in before.st.done;
          return;
        }
        ReleaseShrinks(before);
        DoneIsWhatIsLeft(desc, free, info, busy, rings, book);
      }
    }

    /** `free_chain` from `h`: it follows the links through exactly the chain's three descriptors. */
    method FreeChain(h: nat, ghost c: Chain) returns (panicked: bool)
      requires Valid() && h in book.chains && c == book.chains[h] && h < NUM && c.data < NUM && c.status < NUM
      requires |desc| == |free| == NUM
      modifies this`free, this`desc
      ensures !panicked && desc == Blanked(old(desc), h, c) && free == Opened(old(free), h, c)
    {
      hide StagesOk, InRing, PastOk, BufsOk, Readable, Formatted;
      assert ChainOk(desc, h, c, book.own) && h in Members(h, c) && c.data in Members(h, c)
          && c.status in Members(h, c);
      var i := h;
      ghost var n := 0;
      panicked := false;
      while true
        invariant 0 <= n < 3 && !panicked && |desc| == NUM && |free| == NUM
        invariant i == if n == 0 then h else if n == 1 then c.data else c.status
        invariant n == 0 ==> desc == old(desc) && free == old(free)
        invariant n == 1 ==> desc == old(desc)[h := NO_DESC] && free == old(free)[h := true]
        invariant n == 2 ==>
          && desc == old(desc)[h := NO_DESC][c.data := NO_DESC] && free == old(free)[h := true][c.data := true]
        decreases 3 - n
      {
        var flag, nxt := desc[i].chained, desc[i].next;
        panicked := FreeDesc(i);
        if flag {
          i := nxt;
          n := n + 1;
        } else {
          break;
        }
      }
    }

    /** The end of `virtio_disk_rw`, once `b->disk` is 0: forget the buffer and free the chain. */
    method Finish(h: nat) returns (panicked: bool)
      requires Valid() && h in book.reqs && book.reqs[h].b !in busy
      modifies this`free, this`desc, this`info, this`book, this`asked
      ensures Valid() && !panicked && book == Forget(old(book), h)
      ensures asked == old(asked) - {h}
      ensures old(book.reqs)[h].id in book.past.completed && old(book.reqs)[h].id in book.past.released
      ensures forall i: nat :: i < NUM ==> (free[i] <==> old(free)[i] || i in Members(h, old(book.chains)[h]))
    {
      hide DiskOk, Readable, Formatted, ChainsOk;
      Lengths(desc, free, info, busy, rings, book);
      Finished(desc, free, info, busy, rings, book, h);
      ghost var c := book.chains[h];
      ChainsPart(desc, free, info, busy, rings, book);
      FinishReadable(desc, free, ops, book, asked, h);
      panicked := FreeChain(h, c);
      info := info[h := info[h].(b := None)];
      book, asked := Forget(book, h), asked - {h};
    }
  }

  lemma Added(k: Book, h: nat, c: Chain, b: nat)
    ensures h in AddReq(k, h, c, b).chains && AddReq(k, h, c, b).chains[h] == c
    ensures h in AddReq(k, h, c, b).reqs && AddReq(k, h, c, b).reqs[h].b == b
  {
  }

  predicate Three(idx: seq<nat>) {
    && |idx| == 3 && idx[0] < NUM && idx[1] < NUM && idx[2] < NUM
    && idx[0] != idx[1] && idx[0] != idx[2] && idx[1] != idx[2]
  }

  /** Fewer than three descriptors are free. */
  ghost predicate AtMostTwo(free: seq<bool>) {
    |free| == NUM && forall x: nat, y: nat, z: nat :: x < y < z < NUM ==> !free[x] || !free[y] || !free[z]
  }

  lemma TwoOnly(free: seq<bool>, idx: seq<nat>)
    requires |free| == NUM && |idx| <= 2 && forall j: nat :: j < NUM && free[j] ==> j in idx
    ensures AtMostTwo(free)
  {
    forall x: nat, y: nat, z: nat | x < y < z < NUM
      ensures !free[x] || !free[y] || !free[z]
    {
      if |idx| == 2 {
        assert forall j :: j in idx ==> j == idx[0] || j == idx[1];
      }
    }
  }
}
