/** The split virtqueue shared by the disk driver and the device (sections 2.6 and 5.2.6 of
    VirtIO 1.1): driver code runs under one lock, the device acts between any two such steps. */
module Virtqueue {
  import opened Blocks
  import opened Counting

  /** A block's bytes as one value: neither side of the queue looks inside. */
  type Content = int

  const NUM := 8
  const F_NEXT := 1
  const F_WRITE := 2
  const T_IN := 0
  const T_OUT := 1

  /** Where a descriptor points: a command header, a buffer's bytes, or a status byte. */
  datatype Addr = Null | Header(i: nat) | Data(b: nat) | Status(i: nat)
  datatype Desc = Desc(addr: Addr, len: nat, flags: nat, next: nat)
  datatype Command = Command(kind: nat, sector: nat)
  datatype Info = Info(b: nat, status: nat)

  /** What the device has read from a chain it took. */
  datatype Job = Job(kind: nat, sector: nat, b: nat, status: nat)

  /** The avail or the used ring: an index counted modulo 2^16, and NUM entries. */
  datatype Ring = Ring(idx: nat, ring: seq<nat>)

  const CLEAR := Desc(Null, 0, 0, 0)

  // ---- ghost bookkeeping -----------------------------------------------------------

  datatype Use = Idle | Part(head: nat, k: nat)
  datatype Phase = Posted | Taken | Done | Seen
  datatype Request = Request(ticket: nat, b: nat, block: nat, write: bool, content: Content, mid: nat, last: nat,
                             phase: Phase)
  /** A transfer the device made, with the bytes it moved. */
  datatype Transfer = Transfer(ticket: nat, b: nat, block: nat, write: bool, content: Content)

  type Requests = map<nat, Request>

  /** What descriptors are used for, requests by head, the queues in the two rings, all transfers
      so far, and where in them each ticket is (-1 if not yet). */
  datatype Book = Book(use: seq<Use>, req: Requests, posted: seq<nat>, done: seq<nat>, history: seq<Transfer>,
                       doneAt: seq<int>)

  function SlotAt(req: Requests, h: nat, k: nat): (s: nat)
    requires h in req
  {
    if k == 0 then h else if k == 1 then req[h].mid else req[h].last
  }

  /** Every descriptor is free or belongs to exactly one place of exactly one chain. */
  ghost predicate SlotsOk(free: seq<bool>, desc: seq<Desc>, use: seq<Use>, req: Requests) {
    && |free| == |desc| == |use| == NUM
    && (forall i :: 0 <= i < NUM ==> (free[i] <==> use[i].Idle?))
    && (forall i :: 0 <= i < NUM && free[i] ==> desc[i] == CLEAR)
    && (forall i :: 0 <= i < NUM && use[i].Part? ==>
        use[i].head in req && use[i].k < 3 && SlotAt(req, use[i].head, use[i].k) == i)
    && (forall h {:trigger req[h]} :: h in req ==>
          && h < NUM && req[h].mid < NUM && req[h].last < NUM
          && use[h] == Part(h, 0) && use[req[h].mid] == Part(h, 1) && use[req[h].last] == Part(h, 2))
  }

  /** The descriptors, command and info of a request say what was asked for. */
  ghost predicate Formatted(desc: seq<Desc>, ops: seq<Command>, info: seq<Info>, h: nat, r: Request) {
    && |desc| == |ops| == |info| == NUM && h < NUM && r.mid < NUM && r.last < NUM
    && desc[h] == Desc(Header(h), 16, F_NEXT, r.mid)
    && desc[r.mid] == Desc(Data(r.b), BSIZE, if r.write then F_NEXT else F_NEXT + F_WRITE, r.last)
    && desc[r.last] == Desc(Status(h), 1, F_WRITE, 0)
    && ops[h].kind == (if r.write then T_OUT else T_IN) && ops[h].sector == 2 * r.block
    && info[h].b == r.b && (r.phase.Done? || r.phase.Seen? ==> info[h].status == 0)
  }

  ghost predicate DescOk(desc: seq<Desc>, ops: seq<Command>, info: seq<Info>, req: Requests) {
    && |desc| == |ops| == |info| == NUM
    && forall h {:trigger req[h]} :: h in req ==> Formatted(desc, ops, info, h, req[h])
  }

  /** A ring: `queue` lists, in order and without repetition, the requests of one phase, from
      16-bit index `from` up to `to`. */
  ghost predicate RingOk(ring: seq<nat>, from: nat, to: nat, queue: seq<nat>, req: Requests, phase: Phase) {
    && |ring| == NUM && from < 0x1_0000 && |queue| <= 2 && to == (from + |queue|) % 0x1_0000
    && (forall k :: 0 <= k < |queue| ==> queue[k] in req && req[queue[k]].phase == phase
                                         && ring[(from + k) % NUM] == queue[k])
    && (|queue| == 2 ==> queue[0] != queue[1])
    && (forall h {:trigger req[h]} :: h in req && req[h].phase == phase ==> h in queue)
  }

  ghost predicate DeviceOk(jobs: map<nat, Job>, req: Requests) {
    && (forall h {:trigger jobs[h]} {:trigger h in jobs} :: h in jobs ==> h in req && req[h].phase.Taken?)
    && (forall h {:trigger req[h]} :: h in req && req[h].phase.Taken? ==>
          h in jobs && jobs[h] == Job(if req[h].write then T_OUT else T_IN, 2 * req[h].block, req[h].b, h))
  }

  /** Each buffer has at most one request; b->disk is 1 until the interrupt has seen it done. */
  ghost predicate BuffersOk(data: map<nat, Content>, busy: set<nat>, req: Requests) {
    && (forall h, g {:trigger req[h], req[g]} :: h in req && g in req && req[h].b == req[g].b ==> h == g)
    && (forall h {:trigger req[h]} :: h in req ==>
          && req[h].b in data && req[h].b != 0
          && (req[h].b in busy <==> !req[h].phase.Seen?)
          && (req[h].write ==> data[req[h].b] == req[h].content))
  }

  /** Every ticket not in flight before the device is in the history exactly once. */
  ghost predicate HistoryOk(history: seq<Transfer>, doneAt: seq<int>, data: map<nat, Content>, req: Requests) {
    && (forall k :: 0 <= k < |history| ==> history[k].ticket < |doneAt| && doneAt[history[k].ticket] == k)
    && (forall t :: 0 <= t < |doneAt| ==> -1 <= doneAt[t] < |history|
                                          && (doneAt[t] >= 0 ==> history[doneAt[t]].ticket == t))
    && (forall h, g {:trigger req[h], req[g]} :: h in req && g in req && req[h].ticket == req[g].ticket ==> h == g)
    && (forall h {:trigger req[h]} :: h in req ==>
          && req[h].ticket < |doneAt| && req[h].b in data
          && (doneAt[req[h].ticket] < 0 <==> req[h].phase.Posted? || req[h].phase.Taken?)
          && (doneAt[req[h].ticket] >= 0 ==>
                history[doneAt[req[h].ticket]] == Transfer(req[h].ticket, req[h].b, req[h].block, req[h].write,
                                                           data[req[h].b])))
  }

  /** Three descriptors each, eight in all: at most two requests are in flight. */
  lemma AtMostTwo(free: seq<bool>, desc: seq<Desc>, use: seq<Use>, req: Requests, a: nat, b: nat, c: nat)
    requires SlotsOk(free, desc, use, req) && a in req && b in req && c in req
    ensures a == b || b == c || a == c
  {
    if a != b && b != c && a != c {
      var heads := [a, b, c];
      var s := [a, req[a].mid, req[a].last, b, req[b].mid, req[b].last, c, req[c].mid, req[c].last];
      assert forall i :: 0 <= i < 9 ==> s[i] < NUM && use[s[i]] == Part(heads[i / 3], i % 3);
      Pigeonhole(s, NUM);
    }
  }

  function CountFree(free: seq<bool>): (n: nat) {
    if |free| == 0 then 0 else (if free[0] then 1 else 0) + CountFree(free[1..])
  }

  /** Flipping one entry changes the count by one. */
  lemma {:induction false} CountFlip(free: seq<bool>, i: nat, v: bool)
    requires i < |free| && free[i] != v
    ensures CountFree(free[i := v]) == CountFree(free) + if v then 1 else -1
  {
    if i == 0 {
      assert free[0 := v][1..] == free[1..];
    } else {
      assert free[i := v][1..] == free[1..][i - 1 := v];
      CountFlip(free[1..], i - 1, v);
    }
  }

  lemma {:induction false} CountNone(free: seq<bool>)
    requires forall i :: 0 <= i < |free| ==> !free[i]
    ensures CountFree(free) == 0
  {
    if |free| > 0 { CountNone(free[1..]); }
  }

  // ---- what one request's change does to the others -----------------------------------

  /** The three descriptors of a request in their places. */
  ghost function Placed(use: seq<Use>, h: nat, r: Request): (u: seq<Use>)
    requires |use| == NUM && h < NUM && r.mid < NUM && r.last < NUM
    ensures |u| == NUM
  {
    use[h := Part(h, 0)][r.mid := Part(h, 1)][r.last := Part(h, 2)]
  }

  /** A new request on three free descriptors. */
  lemma AddSlots(free: seq<bool>, desc: seq<Desc>, use: seq<Use>, req: Requests, h: nat, r: Request, desc': seq<Desc>)
    requires SlotsOk(free, desc, use, req) && |desc'| == NUM
    requires h < NUM && r.mid < NUM && r.last < NUM && h != r.mid && r.mid != r.last && h != r.last
    requires free[h] && free[r.mid] && free[r.last]
    requires forall i :: 0 <= i < NUM && i != h && i != r.mid && i != r.last ==> desc'[i] == desc[i]
    ensures h !in req
    ensures SlotsOk(free[h := false][r.mid := false][r.last := false], desc', Placed(use, h, r), req[h := r])
  {
    AddedSlots(free, desc, use, req, h, r, free[h := false][r.mid := false][r.last := false], desc', Placed(use, h, r));
  }

  lemma AddedSlots(free: seq<bool>, desc: seq<Desc>, use: seq<Use>, req: Requests, h: nat, r: Request,
                   free': seq<bool>, desc': seq<Desc>, use': seq<Use>)
    requires SlotsOk(free, desc, use, req) && |free'| == |desc'| == |use'| == NUM && h !in req
    requires h < NUM && r.mid < NUM && r.last < NUM && free[h] && free[r.mid] && free[r.last]
    requires use'[h] == Part(h, 0) && use'[r.mid] == Part(h, 1) && use'[r.last] == Part(h, 2)
    requires forall i :: 0 <= i < NUM ==>
               if i == h || i == r.mid || i == r.last then !free'[i]
               else free'[i] == free[i] && desc'[i] == desc[i] && use'[i] == use[i]
    ensures SlotsOk(free', desc', use', req[h := r])
  {
    var req' := req[h := r];
    forall g | g in req'
      ensures && g < NUM && req'[g].mid < NUM && req'[g].last < NUM
              && use'[g] == Part(g, 0) && use'[req'[g].mid] == Part(g, 1) && use'[req'[g].last] == Part(g, 2)
    {
      if g != h { assert req'[g] == req[g]; }
    }
    forall i | 0 <= i < NUM && use'[i].Part?
      ensures use'[i].head in req' && use'[i].k < 3 && SlotAt(req', use'[i].head, use'[i].k) == i
    {
      assert use'[i].head == h || use'[i] == use[i];
    }
  }

  lemma AddDesc(desc: seq<Desc>, ops: seq<Command>, info: seq<Info>, free: seq<bool>, use: seq<Use>, req: Requests,
                h: nat, r: Request, desc': seq<Desc>, ops': seq<Command>, info': seq<Info>)
    requires SlotsOk(free, desc, use, req) && DescOk(desc, ops, info, req) && Formatted(desc', ops', info', h, r)
    requires free[h] && free[r.mid] && free[r.last]
    requires forall i :: 0 <= i < NUM && i != h && i != r.mid && i != r.last ==> desc'[i] == desc[i]
    requires forall i :: 0 <= i < NUM && i != h ==> ops'[i] == ops[i] && info'[i] == info[i]
    ensures DescOk(desc', ops', info', req[h := r])
  {
    var req' := req[h := r];
    forall g | g in req' ensures Formatted(desc', ops', info', g, req'[g]) {
      if g != h { assert req'[g] == req[g]; }
    }
  }

  /** The two maps agree except at h. */
  ghost predicate Others(req: Requests, req': Requests, h: nat) {
    forall g {:trigger req[g]} {:trigger req'[g]} {:trigger g in req} {:trigger g in req'} ::
      g != h ==> (g in req <==> g in req') && (g in req ==> req[g] == req'[g])
  }

  /** One request has been added, posted and not yet taken. */
  ghost predicate Added(was: Requests, req: Requests, h: nat, ticket: nat, b: nat, block: nat, write: bool,
                        content: Content) {
    && h !in was && h in req && Others(was, req, h)
    && req[h] == Request(ticket, b, block, write, content, req[h].mid, req[h].last, Posted)
  }

  lemma Push(ring: seq<nat>, from: nat, to: nat, q: seq<nat>, req: Requests, phase: Phase, h: nat, req': Requests)
    requires RingOk(ring, from, to, q, req, phase) && |q| <= 1 && h !in q
    requires Others(req, req', h) && h in req' && req'[h].phase == phase
    ensures RingOk(ring[to % NUM := h], from, (to + 1) % 0x1_0000, q + [h], req', phase)
  {
    assert to % NUM == (from + |q|) % NUM;
    assert |q| == 1 ==> (from + 0) % NUM != (from + 1) % NUM;
  }

  lemma Pop(ring: seq<nat>, from: nat, to: nat, q: seq<nat>, req: Requests, phase: Phase, req': Requests)
    requires RingOk(ring, from, to, q, req, phase) && |q| > 0
    requires Others(req, req', q[0]) && q[0] in req' && req'[q[0]].phase != phase
    ensures RingOk(ring, (from + 1) % 0x1_0000, to, q[1..], req', phase)
  {
    assert ((from + 1) % 0x1_0000) % NUM == (from + 1) % NUM;
    if |q| == 2 {
      assert q[1] in req && ring[(from + 1) % NUM] == q[1] && req[q[1]] == req'[q[1]];
    }
    forall g | g in req' && req'[g].phase == phase ensures g in q[1..] {
      assert req[g] == req'[g];
      assert g in q;
    }
  }

  lemma RingKept(ring: seq<nat>, from: nat, to: nat, q: seq<nat>, req: Requests, phase: Phase, h: nat, req': Requests)
    requires RingOk(ring, from, to, q, req, phase) && Others(req, req', h)
    requires (h in req ==> req[h].phase != phase) && (h in req' ==> req'[h].phase != phase)
    ensures RingOk(ring, from, to, q, req', phase)
  {
    forall k | 0 <= k < |q| ensures q[k] in req' && req'[q[k]].phase == phase {
      assert q[k] in req && req[q[k]].phase == phase;
    }
    forall g | g in req' && req'[g].phase == phase ensures g in q {
      assert req[g] == req'[g];
    }
  }

  /** Request h in another phase. */
  ghost function Moved(req: Requests, h: nat, phase: Phase): (r: Requests)
    requires h in req
  {
    req[h := req[h].(phase := phase)]
  }

  /** A request moving to another phase keeps its descriptors. */
  lemma PhaseKeepsSlots(free: seq<bool>, desc: seq<Desc>, use: seq<Use>, req: Requests, h: nat, phase: Phase)
    requires SlotsOk(free, desc, use, req) && h in req
    ensures SlotsOk(free, desc, use, Moved(req, h, phase))
  {
    var req' := Moved(req, h, phase);
    forall g | g in req'
      ensures && g < NUM && req'[g].mid < NUM && req'[g].last < NUM
              && use[g] == Part(g, 0) && use[req'[g].mid] == Part(g, 1) && use[req'[g].last] == Part(g, 2)
    {
      assert g in req && req'[g].mid == req[g].mid && req'[g].last == req[g].last;
    }
  }

  lemma PhaseKeepsDesc(desc: seq<Desc>, ops: seq<Command>, info: seq<Info>, req: Requests, h: nat, phase: Phase)
    requires DescOk(desc, ops, info, req) && h in req && (phase.Done? || phase.Seen? ==> info[h].status == 0)
    ensures DescOk(desc, ops, info, Moved(req, h, phase))
  {
    var req' := Moved(req, h, phase);
    forall g | g in req' ensures Formatted(desc, ops, info, g, req'[g]) {
      assert Formatted(desc, ops, info, g, req[g]);
    }
  }

  lemma StatusKeepsDesc(desc: seq<Desc>, ops: seq<Command>, info: seq<Info>, req: Requests, h: nat)
    requires DescOk(desc, ops, info, req) && h < NUM
    ensures DescOk(desc, ops, info[h := info[h].(status := 0)], req)
  {
    forall g | g in req ensures Formatted(desc, ops, info[h := info[h].(status := 0)], g, req[g]) {
      assert Formatted(desc, ops, info, g, req[g]);
    }
  }

  lemma SlotFacts(free: seq<bool>, desc: seq<Desc>, use: seq<Use>, req: Requests)
    requires SlotsOk(free, desc, use, req)
    ensures |free| == |desc| == |use| == NUM && forall i :: 0 <= i < NUM && free[i] ==> desc[i] == CLEAR
  {
  }

  /** The books after a request is posted. */
  ghost function Opened(g: Book, h: nat, r: Request): (g': Book)
    requires |g.use| == NUM && h < NUM && r.mid < NUM && r.last < NUM
  {
    g.(use := Placed(g.use, h, r), req := g.req[h := r], posted := g.posted + [h], doneAt := g.doneAt + [-1])
  }

  /** A new request goes to the end of the avail ring; the used ring, the device's jobs, the other
      buffers and the history stay in order. */
  lemma AddRest(avail: Ring, takenIdx: nat, used: Ring, seenIdx: nat, jobs: map<nat, Job>, data: map<nat, Content>,
                busy: set<nat>,
                g: Book, h: nat, r: Request, free: seq<bool>, desc: seq<Desc>)
    requires RingOk(used.ring, seenIdx, used.idx, g.done, g.req, Done) && DeviceOk(jobs, g.req) && h !in g.req
             && r.phase.Posted?
    requires RingOk(avail.ring, takenIdx, avail.idx, g.posted, g.req, Posted)
    requires |g.use| == NUM && h < NUM && r.mid < NUM && r.last < NUM
             && SlotsOk(free, desc, Placed(g.use, h, r), g.req[h := r])
    requires BuffersOk(data, busy, g.req) && HistoryOk(g.history, g.doneAt, data, g.req)
    requires r.b in data && r.b != 0 && r.content == data[r.b] && r.ticket == |g.doneAt| && forall k :: k in g.req ==>
               g.req[k].b != r.b
    ensures var g' := Opened(g, h, r);
            && RingOk(used.ring, seenIdx, used.idx, g'.done, g'.req, Done) && DeviceOk(jobs, g'.req)
            && |avail.ring| == NUM
            && RingOk(avail.ring[avail.idx % NUM := h], takenIdx, (avail.idx + 1) % 0x1_0000, g'.posted, g'.req, Posted)
            && BuffersOk(data, busy + {r.b}, g'.req) && HistoryOk(g'.history, g'.doneAt, data, g'.req)
            && Added(g.req, g'.req, h, r.ticket, r.b, r.block, r.write, r.content)
  {
    hide SlotsOk, HistoryOk, BuffersOk, RingOk, DeviceOk, Others, Placed;
    var req, req' := g.req, g.req[h := r];
    AddedOthers(req, h, r);
    RingKept(used.ring, seenIdx, used.idx, g.done, req, Done, h, req');
    AddKeepsJobs(jobs, req, h, r);
    RoomToPush(free, desc, Placed(g.use, h, r), avail.ring, takenIdx, avail.idx, g.posted, req, req', Posted, h);
    Push(avail.ring, takenIdx, avail.idx, g.posted, req, Posted, h, req');
    AddBuffer(data, busy, g.history, g.doneAt, req, h, r);
  }

  lemma AddedOthers(req: Requests, h: nat, r: Request)
    requires h !in req
    ensures Others(req, req[h := r], h)
  {
  }

  lemma AddKeepsJobs(jobs: map<nat, Job>, req: Requests, h: nat, r: Request)
    requires DeviceOk(jobs, req) && h !in req && r.phase.Posted?
    ensures DeviceOk(jobs, req[h := r])
  {
    var req' := req[h := r];
    forall k | k in req' && req'[k].phase.Taken? ensures k in req && req'[k] == req[k] {
    }
  }

  lemma AddBuffer(data: map<nat, Content>, busy: set<nat>, history: seq<Transfer>, doneAt: seq<int>, req: Requests,
                  h: nat, r: Request)
    requires BuffersOk(data, busy, req) && HistoryOk(history, doneAt, data, req) && h !in req && r.phase.Posted?
    requires r.b in data && r.b != 0 && r.content == data[r.b] && r.ticket == |doneAt| && forall g :: g in req ==>
               req[g].b != r.b
    ensures BuffersOk(data, busy + {r.b}, req[h := r]) && HistoryOk(history, doneAt + [-1], data, req[h := r])
  {
    var req' := req[h := r];
    forall g | g in req' ensures g == h || (g in req && req'[g] == req[g] && req[g].ticket < |doneAt|) {
    }
  }

  lemma RoomToPush(free: seq<bool>, desc: seq<Desc>, use: seq<Use>, ring: seq<nat>, from: nat, to: nat, q: seq<nat>,
                   was: Requests, req: Requests, phase: Phase, h: nat)
    requires SlotsOk(free, desc, use, req) && RingOk(ring, from, to, q, was, phase) && Others(was, req, h) && h in req
    requires h in was ==> was[h].phase != phase
    ensures |q| <= 1 && h !in q && |ring| == NUM
  {
    assert forall k :: 0 <= k < |q| ==> q[k] in was && was[q[k]].phase == phase;
    if |q| == 2 {
      AtMostTwo(free, desc, use, req, q[0], q[1], h);
    }
  }

  lemma NextPosted(avail: Ring, takenIdx: nat, desc: seq<Desc>, ops: seq<Command>, info: seq<Info>, g: Book)
    requires RingOk(avail.ring, takenIdx, avail.idx, g.posted, g.req, Posted) && DescOk(desc, ops, info, g.req)
    ensures takenIdx == avail.idx <==> g.posted == []
    ensures |avail.ring| == |desc| == |ops| == |info| == NUM
    ensures g.posted != [] ==> var h := g.posted[0];
            h == avail.ring[takenIdx % NUM] && h in g.req && g.req[h].phase.Posted?
              && Formatted(desc, ops, info, h, g.req[h])
  {
    if g.posted != [] {
      var h := g.posted[0];
      assert h in g.req && g.req[h].phase.Posted?;
    }
  }

  /** The invariant, as a property of the values of the fields. */
  ghost predicate Parts(free: seq<bool>, desc: seq<Desc>, ops: seq<Command>, info: seq<Info>, avail: Ring, seenIdx: nat,
                        used: Ring, takenIdx: nat, jobs: map<nat, Job>, busy: set<nat>, data: map<nat, Content>,
                          g: Book) {
    && SlotsOk(free, desc, g.use, g.req)
    && DescOk(desc, ops, info, g.req)
    && RingOk(avail.ring, takenIdx, avail.idx, g.posted, g.req, Posted)
    && RingOk(used.ring, seenIdx, used.idx, g.done, g.req, Done)
    && DeviceOk(jobs, g.req)
    && BuffersOk(data, busy, g.req)
    && HistoryOk(g.history, g.doneAt, data, g.req)
  }

  lemma PartsOf(free: seq<bool>, desc: seq<Desc>, ops: seq<Command>, info: seq<Info>, avail: Ring, seenIdx: nat,
                used: Ring, takenIdx: nat, jobs: map<nat, Job>, busy: set<nat>, data: map<nat, Content>, g: Book)
    requires Parts(free, desc, ops, info, avail, seenIdx, used, takenIdx, jobs, busy, data, g)
    ensures SlotsOk(free, desc, g.use, g.req) && DescOk(desc, ops, info, g.req)
    ensures RingOk(avail.ring, takenIdx, avail.idx, g.posted, g.req, Posted)
            && RingOk(used.ring, seenIdx, used.idx, g.done, g.req, Done)
    ensures DeviceOk(jobs, g.req) && BuffersOk(data, busy, g.req) && HistoryOk(g.history, g.doneAt, data, g.req)
  {
  }

  /** The device takes the first posted request. */
  lemma TakeKeeps(free: seq<bool>, desc: seq<Desc>, ops: seq<Command>, info: seq<Info>, avail: Ring, seenIdx: nat,
                  used: Ring, takenIdx: nat, jobs: map<nat, Job>, busy: set<nat>, data: map<nat, Content>, g: Book,
                    h: nat)
    requires Parts(free, desc, ops, info, avail, seenIdx, used, takenIdx, jobs, busy, data, g)
    requires g.posted != [] && h == g.posted[0]
    ensures h in g.req
    ensures var r := g.req[h]; var g' := g.(req := Moved(g.req, h, Taken), posted := g.posted[1..]);
            Parts(free, desc, ops, info, avail, seenIdx, used, (takenIdx + 1) % 0x1_0000,
                  jobs[h := JobOf(r, h)], busy, data, g')
  {
    hide SlotsOk, DescOk, RingOk, DeviceOk, BuffersOk, HistoryOk, Moved, Others;
    NextPosted(avail, takenIdx, desc, ops, info, g);
    var req' := Moved(g.req, h, Taken);
    MovedOthers(g.req, h, Taken);
    PhaseKeepsSlots(free, desc, g.use, g.req, h, Taken);
    PhaseKeepsDesc(desc, ops, info, g.req, h, Taken);
    Pop(avail.ring, takenIdx, avail.idx, g.posted, g.req, Posted, req');
    RingKept(used.ring, seenIdx, used.idx, g.done, g.req, Done, h, req');
    TakenJob(jobs, g.req, h);
    BusyWhile(data, busy, g.req, h);
    MovedBuffers(data, busy, g.req, h, Taken, data, busy);
    MovedHistory(g.history, g.doneAt, data, g.req, h, Taken);
  }

  lemma MovedOthers(req: Requests, h: nat, phase: Phase)
    requires h in req
    ensures Others(req, Moved(req, h, phase), h) && h in Moved(req, h, phase)
            && Moved(req, h, phase)[h] == req[h].(phase := phase)
  {
  }

  lemma BusyWhile(data: map<nat, Content>, busy: set<nat>, req: Requests, h: nat)
    requires BuffersOk(data, busy, req) && h in req
    ensures req[h].b in data && (req[h].b in busy <==> !req[h].phase.Seen?)
  {
  }

  lemma MovedBuffers(data: map<nat, Content>, busy: set<nat>, req: Requests, h: nat, phase: Phase, data': map<nat,
                     Content>, busy': set<nat>)
    requires BuffersOk(data, busy, req) && h in req && data'.Keys == data.Keys
    requires forall b :: b in data && (b != req[h].b || req[h].write) ==> data'[b] == data[b]
    requires forall b :: b != req[h].b ==> (b in busy <==> b in busy')
    requires req[h].b in busy' <==> !phase.Seen?
    ensures BuffersOk(data', busy', Moved(req, h, phase))
  {
    var req' := Moved(req, h, phase);
    forall k | k in req'
      ensures k in req && req'[k].b == req[k].b && req'[k].write == req[k].write && req'[k].content == req[k].content
    {
    }
  }

  lemma MovedHistory(history: seq<Transfer>, doneAt: seq<int>, data: map<nat, Content>, req: Requests, h: nat,
                     phase: Phase)
    requires HistoryOk(history, doneAt, data, req) && h in req
    requires (req[h].phase.Posted? && phase.Taken?) || (req[h].phase.Done? && phase.Seen?)
    ensures HistoryOk(history, doneAt, data, Moved(req, h, phase))
  {
    var req' := Moved(req, h, phase);
    forall k | k in req' ensures k in req && req'[k].(phase := req[k].phase) == req[k] {
    }
  }

  /** The device's private copy of a request. */
  function JobOf(r: Request, h: nat): (j: Job) {
    Job(if r.write then T_OUT else T_IN, 2 * r.block, r.b, h)
  }

  lemma TakenJob(jobs: map<nat, Job>, req: Requests, h: nat)
    requires DeviceOk(jobs, req) && h in req
    ensures DeviceOk(jobs[h := JobOf(req[h], h)], Moved(req, h, Taken))
  {
    var req' := Moved(req, h, Taken);
    forall k | k in req' ensures k in req && (k != h ==> req'[k] == req[k]) {
    }
  }

  lemma LeftJob(jobs: map<nat, Job>, req: Requests, h: nat, phase: Phase)
    requires DeviceOk(jobs, req) && h in req && !phase.Taken?
    ensures DeviceOk(jobs - {h}, Moved(req, h, phase))
  {
    var req' := Moved(req, h, phase);
    forall k | k in req' ensures k in req && (k != h ==> req'[k] == req[k]) {
    }
  }

  /** The transfer itself: one new entry in the history, for a ticket that had none. */
  lemma TransferHistory(history: seq<Transfer>, doneAt: seq<int>, data: map<nat, Content>, busy: set<nat>,
                        req: Requests, h: nat, content: Content)
    requires HistoryOk(history, doneAt, data, req) && BuffersOk(data, busy, req) && h in req && req[h].phase.Taken?
    requires req[h].write ==> content == req[h].content
    ensures req[h].ticket < |doneAt| && doneAt[req[h].ticket] < 0
    ensures HistoryOk(history + [Transfer(req[h].ticket, req[h].b, req[h].block, req[h].write, content)],
                      doneAt[req[h].ticket := |history|], data[req[h].b := content], Moved(req, h, Done))
  {
    var req' := Moved(req, h, Done);
    var r := req[h];
    assert r.ticket < |doneAt| && r.b in data;
    var history' := history + [Transfer(r.ticket, r.b, r.block, r.write, content)];
    var doneAt' := doneAt[r.ticket := |history|];
    forall k | 0 <= k < |history'| ensures history'[k].ticket < |doneAt'| && doneAt'[history'[k].ticket] == k {
      assert k < |history| ==> doneAt[history[k].ticket] == k;
    }
    forall k | k in req'
      ensures && k in req && req'[k].(phase := req[k].phase) == req[k] && (k != h ==> req'[k] == req[k])
              && (k != h ==> req[k].ticket != r.ticket && req[k].b != r.b)
    {
      assert k != h ==> req[k].ticket != req[h].ticket && req[k].b != req[h].b;
    }
  }

  lemma CompleteKeeps(free: seq<bool>, desc: seq<Desc>, ops: seq<Command>, info: seq<Info>, avail: Ring, seenIdx: nat,
                      used: Ring, takenIdx: nat, jobs: map<nat, Job>, busy: set<nat>, data: map<nat, Content>, g: Book,
                        h: nat, content: Content)
    requires Parts(free, desc, ops, info, avail, seenIdx, used, takenIdx, jobs, busy, data, g)
    requires h in jobs && h in g.req && (g.req[h].write ==> content == g.req[h].content) && g.req[h].ticket < |g.doneAt|
    ensures h < |info| && |used.ring| == NUM
    ensures Parts(free, desc, ops, info[h := info[h].(status := 0)], avail, seenIdx,
                  Ring((used.idx + 1) % 0x1_0000, used.ring[used.idx % NUM := h]), takenIdx, jobs - {h}, busy,
                  data[g.req[h].b := content], Completed(g, h, content))
  {
    hide SlotsOk, DescOk, RingOk, DeviceOk, BuffersOk, HistoryOk, Moved, Others;
    JobFacts(free, desc, ops, info, jobs, data, busy, g, h);
    NextDone(used, seenIdx, desc, ops, info, g);
    var req' := Moved(g.req, h, Done);
    MovedOthers(g.req, h, Done);
    PhaseKeepsSlots(free, desc, g.use, g.req, h, Done);
    StatusKeepsDesc(desc, ops, info, g.req, h);
    PhaseKeepsDesc(desc, ops, info[h := info[h].(status := 0)], g.req, h, Done);
    RingKept(avail.ring, takenIdx, avail.idx, g.posted, g.req, Posted, h, req');
    RoomToPush(free, desc, g.use, used.ring, seenIdx, used.idx, g.done, g.req, g.req, Done, h);
    Push(used.ring, seenIdx, used.idx, g.done, g.req, Done, h, req');
    LeftJob(jobs, g.req, h, Done);
    TransferHistory(g.history, g.doneAt, data, busy, g.req, h, content);
    MovedBuffers(data, busy, g.req, h, Done, data[g.req[h].b := content], busy);
  }

  /** The books after the device has made the transfer of request h. */
  ghost function Completed(g: Book, h: nat, content: Content): (g': Book)
    requires h in g.req && g.req[h].ticket < |g.doneAt|
  {
    var r := g.req[h];
    g.(req := Moved(g.req, h, Done), done := g.done + [h], doneAt := g.doneAt[r.ticket := |g.history|],
       history := g.history + [Transfer(r.ticket, r.b, r.block, r.write, content)])
  }

  /** Exactly the bytes of request h have moved, from its buffer to its block or back, and the history
      and the books say so. */
  ghost predicate TransferMade(was: Book, g: Book, h: nat, data0: map<nat, Content>, data: map<nat, Content>,
                               medium0: map<nat, Content>, medium: map<nat, Content>)
    requires h in was.req && was.req[h].ticket < |was.doneAt|
  {
    var r := was.req[h];
    && r.b in data0 && r.b in data && data == data0[r.b := data[r.b]]
    && g == Completed(was, h, data[r.b])
    && (if r.write then data[r.b] == r.content && medium == medium0[r.block := r.content]
        else data[r.b] == ReadMedium(medium0, r.block) && medium == medium0)
  }

  lemma IsTransfer(g: Book, h: nat, data: map<nat, Content>, medium: map<nat, Content>, sent: Content)
    requires h in g.req && g.req[h].ticket < |g.doneAt| && g.req[h].b in data
    requires sent == if g.req[h].write then g.req[h].content else ReadMedium(medium, g.req[h].block)
    ensures TransferMade(g, Completed(g, h, sent), h, data, data[g.req[h].b := sent], medium,
                         if g.req[h].write then medium[g.req[h].block := sent] else medium)
  {
  }

  lemma JobFacts(free: seq<bool>, desc: seq<Desc>, ops: seq<Command>, info: seq<Info>, jobs: map<nat, Job>,
                 data: map<nat, Content>,
                 busy: set<nat>, g: Book, h: nat)
    requires SlotsOk(free, desc, g.use, g.req) && DescOk(desc, ops, info, g.req) && DeviceOk(jobs, g.req)
    requires BuffersOk(data, busy, g.req) && HistoryOk(g.history, g.doneAt, data, g.req) && h in jobs
    ensures h < |info| && |info| == NUM && h in g.req && g.req[h].phase.Taken?
    ensures var job, r := jobs[h], g.req[h]; job.b == r.b && job.sector / 2 == r.block && job.status == h
                                             && (job.kind == T_OUT <==> r.write)
    ensures g.req[h].ticket < |g.doneAt| && g.doneAt[g.req[h].ticket] == -1
    ensures g.req[h].b in data && g.req[h].b in busy && (g.req[h].write ==> data[g.req[h].b] == g.req[h].content)
  {
    assert g.req[h].phase.Taken?;
  }

  lemma NextDone(used: Ring, seenIdx: nat, desc: seq<Desc>, ops: seq<Command>, info: seq<Info>, g: Book)
    requires RingOk(used.ring, seenIdx, used.idx, g.done, g.req, Done) && DescOk(desc, ops, info, g.req)
    ensures seenIdx == used.idx <==> g.done == []
    ensures |used.ring| == |info| == NUM
    ensures g.done != [] ==> var h := g.done[0];
            h == used.ring[seenIdx % NUM] && h in g.req && g.req[h].phase.Done? && h < NUM && info[h].b == g.req[h].b
              && info[h].status == 0
  {
    if g.done != [] {
      var h := g.done[0];
      assert h in g.req && g.req[h].phase.Done?;
    }
  }

  /** Some of the completed requests have been marked seen, and nothing else has changed. */
  ghost predicate Marked(was: Book, g: Book) {
    && g.history == was.history && g.doneAt == was.doneAt && g.req.Keys == was.req.Keys
    && forall k {:trigger g.req[k]} :: k in g.req ==>
         g.req[k] == was.req[k] || (was.req[k].phase.Done? && g.req[k] == was.req[k].(phase := Seen))
  }

  ghost predicate AllMarked(was: Book, g: Book) {
    && g.history == was.history && g.doneAt == was.doneAt && g.req.Keys == was.req.Keys
    && forall k {:trigger g.req[k]} :: k in g.req ==>
         g.req[k] == if was.req[k].phase.Done? then was.req[k].(phase := Seen) else was.req[k]
  }

  lemma NothingMarked(g: Book)
    ensures Marked(g, g)
  {
  }

  lemma MarkedMore(was: Book, g: Book, g': Book)
    requires Marked(was, g) && g.done != [] && g.done[0] in g.req && g.req[g.done[0]].phase.Done?
    requires g' == g.(req := Moved(g.req, g.done[0], Seen), done := g.done[1..])
    ensures Marked(was, g')
  {
    forall k | k in g'.req
      ensures g'.req[k] == was.req[k] || (was.req[k].phase.Done? && g'.req[k] == was.req[k].(phase := Seen))
    {
      assert g.req[k] == was.req[k] || g.req[k].phase.Seen?;
    }
  }

  lemma AllSeen(used: Ring, seenIdx: nat, was: Book, g: Book)
    requires g.done == [] && RingOk(used.ring, seenIdx, used.idx, g.done, g.req, Done) && Marked(was, g)
    ensures AllMarked(was, g)
  {
  }

  lemma SeeKeeps(free: seq<bool>, desc: seq<Desc>, ops: seq<Command>, info: seq<Info>, avail: Ring, seenIdx: nat,
                 used: Ring, takenIdx: nat, jobs: map<nat, Job>, busy: set<nat>, data: map<nat, Content>, g: Book,
                   h: nat)
    requires Parts(free, desc, ops, info, avail, seenIdx, used, takenIdx, jobs, busy, data, g)
    requires g.done != [] && h == g.done[0]
    ensures h in g.req
    ensures Parts(free, desc, ops, info, avail, (seenIdx + 1) % 0x1_0000, used, takenIdx, jobs, busy - {g.req[h].b},
                  data,
                  g.(req := Moved(g.req, h, Seen), done := g.done[1..]))
  {
    hide SlotsOk, DescOk, RingOk, DeviceOk, BuffersOk, HistoryOk, Moved, Others;
    NextDone(used, seenIdx, desc, ops, info, g);
    var req' := Moved(g.req, h, Seen);
    MovedOthers(g.req, h, Seen);
    PhaseKeepsSlots(free, desc, g.use, g.req, h, Seen);
    PhaseKeepsDesc(desc, ops, info, g.req, h, Seen);
    Pop(used.ring, seenIdx, used.idx, g.done, g.req, Done, req');
    RingKept(avail.ring, takenIdx, avail.idx, g.posted, g.req, Posted, h, req');
    NoJob(jobs, g.req, h);
    LeftJob(jobs, g.req, h, Seen);
    BusyWhile(data, busy, g.req, h);
    MovedBuffers(data, busy, g.req, h, Seen, data, busy - {g.req[h].b});
    MovedHistory(g.history, g.doneAt, data, g.req, h, Seen);
  }

  lemma NoJob(jobs: map<nat, Job>, req: Requests, h: nat)
    requires DeviceOk(jobs, req) && h in req && !req[h].phase.Taken?
    ensures h !in jobs && jobs - {h} == jobs
  {
  }

  /** Request h is over. */
  ghost function Closed(g: Book, h: nat): (g': Book)
    requires |g.use| == NUM && h < NUM && h in g.req && g.req[h].mid < NUM && g.req[h].last < NUM
  {
    g.(use := g.use[h := Idle][g.req[h].mid := Idle][g.req[h].last := Idle], req := g.req - {h})
  }

  lemma ChainApart(free: seq<bool>, desc: seq<Desc>, g: Book, h: nat)
    requires SlotsOk(free, desc, g.use, g.req) && h in g.req
    ensures |free| == |desc| == |g.use| == NUM
    ensures var r := g.req[h];
            && h < NUM && r.mid < NUM && r.last < NUM && h != r.mid && r.mid != r.last && h != r.last
            && !free[h] && !free[r.mid] && !free[r.last]
  {
    var r := g.req[h];
    assert g.use[h] == Part(h, 0) && g.use[r.mid] == Part(h, 1) && g.use[r.last] == Part(h, 2);
  }

  lemma RemoveSlots(free: seq<bool>, desc: seq<Desc>, g: Book, h: nat)
    requires SlotsOk(free, desc, g.use, g.req) && h in g.req
    ensures var r := g.req[h];
            && h < NUM && r.mid < NUM && r.last < NUM && h != r.mid && r.mid != r.last && h != r.last
            && !free[h] && !free[r.mid] && !free[r.last]
            && SlotsOk(free[h := true][r.mid := true][r.last := true],
                       desc[h := CLEAR][r.mid := CLEAR][r.last := CLEAR],
                       Closed(g, h).use, Closed(g, h).req)
  {
    hide SlotsOk;
    var r := g.req[h];
    ChainApart(free, desc, g, h);
    RemovedSlots(free, desc, g, h, free[h := true][r.mid := true][r.last := true],
                 desc[h := CLEAR][r.mid := CLEAR][r.last := CLEAR], Closed(g, h).use);
  }

  lemma RemovedSlots(free: seq<bool>, desc: seq<Desc>, g: Book, h: nat, free': seq<bool>, desc': seq<Desc>,
                     use': seq<Use>)
    requires SlotsOk(free, desc, g.use, g.req) && h in g.req && |free'| == |desc'| == |use'| == NUM
    requires forall i :: 0 <= i < NUM ==>
               if i == h || i == g.req[h].mid || i == g.req[h].last then
                   free'[i] && desc'[i] == CLEAR && use'[i] == Idle
               else free'[i] == free[i] && desc'[i] == desc[i] && use'[i] == g.use[i]
    ensures SlotsOk(free', desc', use', g.req - {h})
  {
    var req' := g.req - {h};
    assert g.use[h] == Part(h, 0) && g.use[g.req[h].mid] == Part(h, 1) && g.use[g.req[h].last] == Part(h, 2);
    forall k | k in req' ensures k in g.req && req'[k] == g.req[k] && k != h {
    }
    forall k | k in g.req && k != h
      ensures k < NUM && g.req[k].mid < NUM && g.req[k].last < NUM
      ensures use'[k] == Part(k, 0) && use'[g.req[k].mid] == Part(k, 1) && use'[g.req[k].last] == Part(k, 2)
    {
      assert g.use[k] == Part(k, 0) && g.use[g.req[k].mid] == Part(k, 1) && g.use[g.req[k].last] == Part(k, 2);
    }
    forall i | 0 <= i < NUM && use'[i].Part?
      ensures use'[i].head in req' && use'[i].k < 3 && SlotAt(req', use'[i].head, use'[i].k) == i
    {
      OtherPart(free, desc, g, h, i);
    }
  }

  /** A descriptor outside the chain of h is part of another request's chain. */
  lemma OtherPart(free: seq<bool>, desc: seq<Desc>, g: Book, h: nat, i: nat)
    requires SlotsOk(free, desc, g.use, g.req) && h in g.req && i < NUM && g.use[i].Part?
    requires i != h && i != g.req[h].mid && i != g.req[h].last
    ensures g.use[i].head in g.req - {h} && g.use[i].k < 3 && SlotAt(g.req - {h}, g.use[i].head, g.use[i].k) == i
  {
    assert g.use[h] == Part(h, 0);
    assert SlotAt(g.req, g.use[i].head, g.use[i].k) == i;
  }

  lemma RemoveDesc(free: seq<bool>, desc: seq<Desc>, ops: seq<Command>, info: seq<Info>, g: Book, h: nat)
    requires SlotsOk(free, desc, g.use, g.req) && DescOk(desc, ops, info, g.req) && h in g.req
    ensures var r := g.req[h];
            && h < NUM && r.mid < NUM && r.last < NUM && |info| == |desc| == NUM
            && DescOk(desc[h := CLEAR][r.mid := CLEAR][r.last := CLEAR], ops, info[h := info[h].(b := 0)], g.req - {h})
  {
    var r := g.req[h];
    var desc' := desc[h := CLEAR][r.mid := CLEAR][r.last := CLEAR];
    forall k | k in g.req - {h} ensures Formatted(desc', ops, info[h := info[h].(b := 0)], k, (g.req - {h})[k]) {
      assert Formatted(desc, ops, info, k, g.req[k]);
      assert g.use[k] == Part(k, 0) && g.use[g.req[k].mid] == Part(k, 1) && g.use[g.req[k].last] == Part(k, 2);
      assert g.use[h] == Part(h, 0) && g.use[r.mid] == Part(h, 1) && g.use[r.last] == Part(h, 2);
    }
  }

  lemma RemoveRest(jobs: map<nat, Job>, busy: set<nat>, data: map<nat, Content>, g: Book, h: nat)
    requires DeviceOk(jobs, g.req) && BuffersOk(data, busy, g.req) && HistoryOk(g.history, g.doneAt, data, g.req)
    requires h in g.req && g.req[h].phase.Seen?
    ensures var req' := g.req - {h};
            DeviceOk(jobs, req') && BuffersOk(data, busy, req') && HistoryOk(g.history, g.doneAt, data, req')
  {
    var req' := g.req - {h};
    forall k | k in req' ensures k in g.req && req'[k] == g.req[k] {
    }
    forall k | k in jobs ensures k in req' && req'[k].phase.Taken? {
      assert k in g.req && g.req[k].phase.Taken?;
    }
  }

  /** The ticket of request h: made once, with what is in the buffer now. */
  ghost predicate DoneOnce(history: seq<Transfer>, r: Request, content: Content) {
    exists k :: 0 <= k < |history| && history[k] == Transfer(r.ticket, r.b, r.block, r.write, content)
                && forall j :: 0 <= j < |history| && history[j].ticket == r.ticket ==> j == k
  }

  lemma SeenIsDone(data: map<nat, Content>, busy: set<nat>, g: Book, h: nat)
    requires BuffersOk(data, busy, g.req) && HistoryOk(g.history, g.doneAt, data, g.req)
    requires h in g.req && g.req[h].b !in busy
    ensures g.req[h].phase.Seen? && g.req[h].b in data && DoneOnce(g.history, g.req[h], data[g.req[h].b])
    ensures g.req[h].write ==> data[g.req[h].b] == g.req[h].content
  {
    var k := g.doneAt[g.req[h].ticket];
    assert 0 <= k < |g.history| && g.history[k] == Transfer(g.req[h].ticket, g.req[h].b, g.req[h].block,
                                                            g.req[h].write, data[g.req[h].b]);
  }

  lemma RemoveKeeps(free: seq<bool>, desc: seq<Desc>, ops: seq<Command>, info: seq<Info>, avail: Ring, seenIdx: nat,
                    used: Ring, takenIdx: nat, jobs: map<nat, Job>, busy: set<nat>, data: map<nat, Content>, g: Book,
                      h: nat)
    requires Parts(free, desc, ops, info, avail, seenIdx, used, takenIdx, jobs, busy, data, g)
    requires h in g.req && g.req[h].phase.Seen?
    ensures var r := g.req[h];
            && |free| == |desc| == |info| == |g.use| == NUM && h < NUM && r.mid < NUM && r.last < NUM
            && Parts(free[h := true][r.mid := true][r.last := true], desc[h := CLEAR][r.mid := CLEAR][r.last := CLEAR],
                     ops,
                     info[h := info[h].(b := 0)], avail, seenIdx, used, takenIdx, jobs, busy, data, Closed(g, h))
  {
    hide SlotsOk, DescOk, RingOk, DeviceOk, BuffersOk, HistoryOk;
    RemoveSlots(free, desc, g, h);
    RemoveDesc(free, desc, ops, info, g, h);
    RemoveRest(jobs, busy, data, g, h);
    SlotFacts(free, desc, g.use, g.req);
    assert Others(g.req, g.req - {h}, h);
    RingKept(avail.ring, takenIdx, avail.idx, g.posted, g.req, Posted, h, g.req - {h});
    RingKept(used.ring, seenIdx, used.idx, g.done, g.req, Done, h, g.req - {h});
  }

  lemma Links(desc: seq<Desc>, ops: seq<Command>, info: seq<Info>, g: Book, h: nat)
    requires DescOk(desc, ops, info, g.req) && h in g.req
    ensures var r := g.req[h];
            && |desc| == NUM && h < NUM && r.mid < NUM && r.last < NUM
            && desc[h].flags % 2 == 1 && desc[h].next == r.mid && desc[r.mid].flags % 2 == 1
               && desc[r.mid].next == r.last
            && desc[r.last].flags % 2 == 0
  {
    assert Formatted(desc, ops, info, h, g.req[h]);
  }

  /** The medium holds zeros where nothing was written. */
  function ReadMedium(medium: map<nat, Content>, block: nat): (c: Content) {
    if block in medium then medium[block] else 0
  }

  class VirtioDisk {
    // the driver's side
    var free: seq<bool>
    var desc: seq<Desc>
    var ops: seq<Command>
    var info: seq<Info>
    var avail: Ring
    var seenIdx: nat
    // the device's side
    var used: Ring
    var takenIdx: nat
    var jobs: map<nat, Job>
    // buffers (b->disk is `busy`) and the medium
    var busy: set<nat>
    var data: map<nat, Content>
    var medium: map<nat, Content>

    ghost var g: Book

    ghost predicate Valid()
      reads this
      ensures Valid() ==> |free| == |desc| == |ops| == |info| == |avail.ring| == |used.ring| == |g.use| == NUM
    {
      Parts(free, desc, ops, info, avail, seenIdx, used, takenIdx, jobs, busy, data, g)
    }

    constructor (data_: map<nat, Content>, medium_: map<nat, Content>)
      ensures Valid() && g.req == map[] && data == data_ && medium == medium_ && g.history == []
              && CountFree(free) == NUM
    {
      free := seq(NUM, _ => true);
      desc := seq(NUM, _ => CLEAR);
      ops := seq(NUM, _ => Command(0, 0));
      info := seq(NUM, _ => Info(0, 0));
      avail, used := Ring(0, seq(NUM, _ => 0)), Ring(0, seq(NUM, _ => 0));
      seenIdx, takenIdx := 0, 0;
      jobs, busy, data, medium := map[], {}, data_, medium_;
      g := Book(seq(NUM, _ => Idle), map[], [], [], [], []);
      new;
      AllFree(free);
    }

    // ---- descriptors -----------------------------------------------------------------

    /** alloc_desc: the lowest free descriptor, or -1. */
    method AllocDesc() returns (i: int)
      requires |free| == NUM
      modifies this`free
      ensures i == -1 ==> free == old(free) && CountFree(free) == 0
      ensures i != -1 ==> && 0 <= i < NUM && old(free)[i] && free == old(free)[i := false]
                          && CountFree(free) == CountFree(old(free)) - 1
                          && forall j :: 0 <= j < i ==> !old(free)[j]
    {
      i := 0;
      while i < NUM && !free[i]
        invariant 0 <= i <= NUM && forall j :: 0 <= j < i ==> !free[j]
      {
        i := i + 1;
      }
      if i < NUM {
        CountFlip(free, i, false);
        free := free[i := false];
      } else {
        CountNone(free);
        i := -1;
      }
    }

    /** free_desc; false stands for its two panics. */
    method FreeDesc(i: nat) returns (ok: bool)
      requires |free| == |desc| == NUM
      modifies this`free, this`desc
      ensures ok <==> i < NUM && !old(free)[i]
      ensures ok ==> desc == old(desc)[i := CLEAR] && free == old(free)[i := true]
                     && CountFree(free) == CountFree(old(free)) + 1
      ensures !ok ==> desc == old(desc) && free == old(free)
    {
      if i >= NUM || free[i] {
        return false;
      }
      CountFlip(free, i, true);
      desc := desc[i := CLEAR];
      free := free[i := true];
      ok := true;
    }

    /** The loop of alloc3_desc that gives back what it had got. */
    method Rollback(ghost was: seq<bool>, idx: seq<nat>)
      requires |free| == |desc| == NUM && Reserved(was, free, idx)
      requires forall i :: 0 <= i < NUM && was[i] ==> desc[i] == CLEAR
      modifies this`free, this`desc
      ensures free == was && desc == old(desc)
    {
      hide CountFree;
      var j := 0;
      assert idx[0..] == idx;
      while j < |idx|
        invariant 0 <= j <= |idx| && Reserved(was, free, idx[j..]) && desc == old(desc) && |free| == NUM
      {
        assert idx[j..] == [idx[j]] + idx[j + 1..];
        assert desc[idx[j] := CLEAR] == desc;
        var freed := FreeDesc(idx[j]);
        assert freed;
        j := j + 1;
      }
    }

    /** alloc3_desc: three descriptors if three are free, and otherwise no change at all. */
    method Alloc3() returns (ok: bool, idx: seq<nat>)
      requires |free| == |desc| == NUM && forall i :: 0 <= i < NUM && free[i] ==> desc[i] == CLEAR
      modifies this`free, this`desc
      ensures ok <==> CountFree(old(free)) >= 3
      ensures desc == old(desc)
      ensures !ok ==> free == old(free)
      ensures ok ==> && |idx| == 3 && idx[0] < idx[1] < idx[2] < NUM && old(free)[idx[0]] && old(free)[idx[1]]
                     && old(free)[idx[2]]
                     && free == old(free)[idx[0] := false][idx[1] := false][idx[2] := false]
    {
      hide CountFree, Reserved;
      idx := [];
      ok := true;
      NothingReserved(free);
      var n := 0;
      while n < 3 && ok
        invariant |free| == NUM && desc == old(desc) && 0 <= n <= 3
        invariant ok ==> |idx| == n && CountFree(free) == CountFree(old(free)) - n && Reserved(old(free), free, idx)
        invariant ok && n > 0 ==> idx[n - 1] < NUM && forall j :: 0 <= j <= idx[n - 1] ==> !free[j]
        invariant !ok ==> free == old(free) && CountFree(old(free)) < 3
        decreases 3 - n, ok
      {
        ghost var before := free;
        var i := AllocDesc();
        if i == -1 {
          Rollback(old(free), idx);
          ok := false;
        } else {
          ReserveOne(old(free), before, idx, i);
          idx := idx + [i];
          n := n + 1;
        }
      }
      if ok {
        ThreeReserved(old(free), free, idx);
      }
    }

    /** Fill in the command, the three descriptors and the info entry of a request. */
    method Format(idx: seq<nat>, b: nat, blockno: Word32, write: bool)
      requires |desc| == |ops| == |info| == NUM && |idx| == 3 && idx[0] < idx[1] < idx[2] < NUM
      modifies this`desc, this`ops, this`info
      ensures |desc| == |ops| == |info| == NUM
      ensures forall i :: 0 <= i < NUM && i != idx[0] && i != idx[1] && i != idx[2] ==> desc[i] == old(desc)[i]
      ensures forall i :: 0 <= i < NUM && i != idx[0] ==> ops[i] == old(ops)[i] && info[i] == old(info)[i]
      ensures forall t, c :: Formatted(desc, ops, info, idx[0],
                                       Request(t, b, blockno % 0x8000_0000, write, c, idx[1], idx[2], Posted))
    {
      var sector := (blockno * 2) % 0x1_0000_0000;
      ops := ops[idx[0] := Command(if write then T_OUT else T_IN, sector)];
      desc := desc[idx[0] := Desc(Header(idx[0]), 16, F_NEXT, idx[1])];
      desc := desc[idx[1] := Desc(Data(b), BSIZE, (if write then 0 else F_WRITE) + F_NEXT, idx[2])];
      info := info[idx[0] := Info(b, 0xff)];
      desc := desc[idx[2] := Desc(Status(idx[0]), 1, F_WRITE, 0)];
      assert sector == 2 * (blockno % 0x8000_0000);
    }

    /** The first part of virtio_disk_rw, up to the notify: post a request if three descriptors are
        free; otherwise nothing changes and the caller sleeps. The caller holds the buffer, so
        no other request uses it. */
    method Submit(b: nat, blockno: Word32, write: bool) returns (ok: bool, h: nat)
      requires Valid() && b != 0 && b in data && forall k :: k in g.req ==> g.req[k].b != b
      modifies this
      ensures Valid()
      ensures ok <==> CountFree(old(free)) >= 3
      ensures !ok ==> unchanged(this)
      ensures ok ==> Added(old(g.req), g.req, h, old(|g.doneAt|), b, blockno % 0x8000_0000, write, old(data)[b])
      ensures ok ==> data == old(data) && medium == old(medium) && g.history == old(g.history)
                     && g.doneAt == old(g.doneAt) + [-1]
    {
      hide SlotsOk, DescOk, RingOk, DeviceOk, BuffersOk, HistoryOk, CountFree, Formatted, Others, Added, Placed;
      var idx;
      SlotFacts(free, desc, g.use, g.req);
      ok, idx := Alloc3();
      h := 0;
      if ok {
        h := idx[0];
        ghost var r := Request(|g.doneAt|, b, blockno % 0x8000_0000, write, data[b], idx[1], idx[2], Posted);
        Format(idx, b, blockno, write);
        AddSlots(old(free), old(desc), g.use, g.req, h, r, desc);
        AddDesc(old(desc), old(ops), old(info), old(free), g.use, g.req, h, r, desc, ops, info);
        AddRest(avail, takenIdx, used, seenIdx, jobs, data, busy, g, h, r, free, desc);
        busy := busy + {b};
        avail := avail.(ring := avail.ring[avail.idx % NUM := h]);
        avail := avail.(idx := (avail.idx + 1) % 0x1_0000);
        g := Opened(g, h, r);
      }
    }

    // ---- the device ------------------------------------------------------------------

    /** The device takes the next avail entry, if there is one, and reads the chain it names. */
    method DeviceTake() returns (ok: bool)
      requires Valid()
      modifies this`takenIdx, this`jobs, this`g
      ensures Valid() && g.history == old(g.history) && g.doneAt == old(g.doneAt)
      ensures ok <==> old(g.posted) != []
      ensures ok ==> var h := old(g.posted)[0]; h in old(g.req)
                                                && g == old(g).(req := Moved(old(g.req), h, Taken),
                                                                posted := old(g.posted)[1..])
      ensures !ok ==> g == old(g)
    {
      hide SlotsOk, DescOk, RingOk, DeviceOk, BuffersOk, HistoryOk, Moved, Parts;
      PartsOf(free, desc, ops, info, avail, seenIdx, used, takenIdx, jobs, busy, data, g);
      NextPosted(avail, takenIdx, desc, ops, info, g);
      ok := takenIdx != avail.idx;
      if ok {
        var h := avail.ring[takenIdx % NUM];
        var first := desc[h];
        var second := desc[first.next];
        var third := desc[second.next];
        var write := second.flags / F_WRITE % 2 == 0;
        assert write <==> ops[first.addr.i].kind == T_OUT;
        TakeKeeps(free, desc, ops, info, avail, seenIdx, used, takenIdx, jobs, busy, data, g, h);
        jobs := jobs[h := Job(ops[first.addr.i].kind, ops[first.addr.i].sector, second.addr.b, third.addr.i)];
        takenIdx := (takenIdx + 1) % 0x1_0000;
        g := g.(req := Moved(g.req, h, Taken), posted := g.posted[1..]);
      }
    }

    /** The bytes of one request go from the buffer to the medium or back. */
    method Transport(job: Job) returns (content: Content)
      requires job.b in data
      modifies this`data, this`medium
      ensures content == if job.kind == T_OUT then old(data)[job.b] else ReadMedium(old(medium), job.sector / 2)
      ensures data == old(data)[job.b := content]
      ensures medium == if job.kind == T_OUT then old(medium)[job.sector / 2 := content] else old(medium)
    {
      if job.kind == T_OUT {
        content := data[job.b];
        medium := medium[job.sector / 2 := content];
      } else {
        content := ReadMedium(medium, job.sector / 2);
        data := data[job.b := content];
      }
    }

    /** The device finishes any request it has taken: it moves the bytes, writes status 0 and
        enters the head in the used ring. Exactly one transfer is made, of the requested block,
        to or from the requesting buffer. */
    method DeviceComplete(h: nat)
      requires Valid() && h in jobs
      modifies this`info, this`used, this`jobs, this`data, this`medium, this`g
      ensures Valid() && h in old(g.req) && old(g.req)[h].ticket < |old(g.doneAt)|
      ensures TransferMade(old(g), g, h, old(data), data, old(medium), medium)
    {
      hide SlotsOk, DescOk, RingOk, DeviceOk, BuffersOk, HistoryOk, Moved, Parts, Completed, TransferMade, ReadMedium;
      PartsOf(free, desc, ops, info, avail, seenIdx, used, takenIdx, jobs, busy, data, g);
      JobFacts(free, desc, ops, info, jobs, data, busy, g, h);
      var content := Transport(jobs[h]);
      Respond(h, jobs[h].status);
      CompleteKeeps(free, desc, ops, old(info), avail, seenIdx, old(used), takenIdx, old(jobs), busy, old(data), g, h,
                    content);
      IsTransfer(g, h, old(data), old(medium), content);
      g := Completed(g, h, content);
    }

    /** The device reports success: status 0, a used entry, and the job is over. */
    method Respond(h: nat, status: nat)
      requires status < |info| && |used.ring| == NUM
      modifies this`info, this`used, this`jobs
      ensures info == old(info)[status := old(info)[status].(status := 0)] && jobs == old(jobs) - {h}
      ensures used == Ring((old(used).idx + 1) % 0x1_0000, old(used).ring[old(used).idx % NUM := h])
    {
      info := info[status := info[status].(status := 0)];
      used := used.(ring := used.ring[used.idx % NUM := h]);
      used := used.(idx := (used.idx + 1) % 0x1_0000);
      jobs := jobs - {h};
    }

    // ---- the interrupt handler and the end of virtio_disk_rw ----------------------------

    /** virtio_disk_intr: every completed request so far is marked done and its waiter woken; the
        status panic is not reached. */
    method Interrupt() returns (ok: bool)
      requires Valid()
      modifies this`seenIdx, this`busy, this`g
      ensures Valid() && ok && g.done == []
      ensures AllMarked(old(g), g)
    {
      hide SlotsOk, DescOk, RingOk, DeviceOk, BuffersOk, HistoryOk, Moved, Parts, Marked, AllMarked;
      ok := true;
      ghost var was := g;
      NothingMarked(g);
      PartsOf(free, desc, ops, info, avail, seenIdx, used, takenIdx, jobs, busy, data, g);
      NextDone(used, seenIdx, desc, ops, info, g);
      while seenIdx != used.idx
        invariant Valid() && ok && (seenIdx == used.idx <==> g.done == []) && Marked(was, g)
        decreases |g.done|
      {
        ghost var before := g;
        var seen := SeeOne();
        ok := ok && seen;
        MarkedMore(was, before, g);
      }
      PartsOf(free, desc, ops, info, avail, seenIdx, used, takenIdx, jobs, busy, data, g);
      AllSeen(used, seenIdx, was, g);
    }

    /** One turn of the handler's loop; false stands for its panic. */
    method SeeOne() returns (ok: bool)
      requires Valid() && seenIdx != used.idx
      modifies this`seenIdx, this`busy, this`g
      ensures Valid() && ok && |old(g.done)| > 0
      ensures var h := old(g.done)[0];
              && h in old(g.req) && old(g.req)[h].phase.Done?
              && g == old(g).(req := Moved(old(g.req), h, Seen), done := old(g.done)[1..])
      ensures seenIdx == used.idx <==> g.done == []
    {
      hide SlotsOk, DescOk, RingOk, DeviceOk, BuffersOk, HistoryOk, Moved, Parts;
      PartsOf(free, desc, ops, info, avail, seenIdx, used, takenIdx, jobs, busy, data, g);
      NextDone(used, seenIdx, desc, ops, info, g);
      var id := used.ring[seenIdx % NUM];
      SeeKeeps(free, desc, ops, info, avail, seenIdx, used, takenIdx, jobs, busy, data, g, id);
      ok := info[id].status == 0;
      busy := busy - {info[id].b};
      seenIdx := (seenIdx + 1) % 0x1_0000;
      g := g.(req := Moved(g.req, id, Seen), done := g.done[1..]);
      PartsOf(free, desc, ops, info, avail, seenIdx, used, takenIdx, jobs, busy, data, g);
      NextDone(used, seenIdx, desc, ops, info, g);
    }

    /** free_chain: follows the links and frees each descriptor; none of them is free already. */
    method FreeChain(head: nat, ghost mid: nat, ghost last: nat) returns (ok: bool)
      requires |free| == |desc| == NUM && head < NUM && mid < NUM && last < NUM
      requires head != mid && mid != last && head != last && !free[head] && !free[mid] && !free[last]
      requires desc[head].flags % 2 == 1 && desc[head].next == mid && desc[mid].flags % 2 == 1 && desc[mid].next == last
      requires desc[last].flags % 2 == 0
      modifies this`free, this`desc
      ensures ok
      ensures free == old(free)[head := true][mid := true][last := true]
      ensures desc == old(desc)[head := CLEAR][mid := CLEAR][last := CLEAR]
    {
      var i := head;
      var more := true;
      ok := true;
      ghost var n := 0;
      while more
        invariant 0 <= n <= 3 && ok && |free| == |desc| == NUM
        invariant more <==> n < 3
        invariant more ==> i == (if n == 0 then head else if n == 1 then mid else last)
        invariant free == (if n == 0 then old(free) else if n == 1 then old(free)[head := true]
                           else if n == 2 then old(free)[head := true][mid := true]
                                else old(free)[head := true][mid := true][last := true])
        invariant desc == (if n == 0 then old(desc) else if n == 1 then old(desc)[head := CLEAR]
                           else if n == 2 then old(desc)[head := CLEAR][mid := CLEAR]
                                else old(desc)[head := CLEAR][mid := CLEAR][last := CLEAR])
        decreases 3 - n
      {
        var flag, nxt := desc[i].flags, desc[i].next;
        var freed := FreeDesc(i);
        ok := ok && freed;
        if flag % 2 == F_NEXT {
          i := nxt;
        } else {
          more := false;
        }
        n := n + 1;
      }
    }

    /** The end of virtio_disk_rw for the request with head h, on its buffer b. While the interrupt has not
        seen it, the caller sleeps on. Otherwise the transfer has been made exactly once, b holds
        the bytes it moved, and the chain's descriptors are free again; no panic is reached. */
    method Finish(h: nat, b: nat) returns (finished: bool, ok: bool)
      requires Valid() && h in g.req && g.req[h].b == b
      modifies this`free, this`desc, this`info, this`g
      ensures Valid() && ok
      ensures finished <==> b !in busy
      ensures !finished ==> unchanged(this)
      ensures finished ==>
                && g.req == old(g.req) - {h} && g.history == old(g.history) && g.doneAt == old(g.doneAt)
                && b in data && DoneOnce(g.history, old(g.req)[h], data[b])
                && (old(g.req)[h].write ==> data[b] == old(g.req)[h].content)
    {
      hide SlotsOk, DescOk, RingOk, DeviceOk, BuffersOk, HistoryOk, Parts, DoneOnce, Formatted;
      ok := true;
      PartsOf(free, desc, ops, info, avail, seenIdx, used, takenIdx, jobs, busy, data, g);
      if b in busy {
        return false, true;
      }
      SeenIsDone(data, busy, g, h);
      RemoveKeeps(free, desc, ops, info, avail, seenIdx, used, takenIdx, jobs, busy, data, g, h);
      ChainApart(free, desc, g, h);
      Links(desc, ops, info, g, h);
      info := info[h := info[h].(b := 0)];
      ok := FreeChain(h, g.req[h].mid, g.req[h].last);
      g := Closed(g, h);
      finished := true;
    }
  }

  lemma {:induction false} AllFree(free: seq<bool>)
    requires forall i :: 0 <= i < |free| ==> free[i]
    ensures CountFree(free) == |free|
  {
    if |free| > 0 { AllFree(free[1..]); }
  }

  /** `free` is `was` with the entries of idx, all free before, taken in ascending order. */
  ghost predicate Reserved(was: seq<bool>, free: seq<bool>, idx: seq<nat>) {
    && |was| == |free|
    && (forall k :: 0 <= k < |idx| ==> idx[k] < |was| && was[idx[k]])
    && (forall j, k :: 0 <= j < k < |idx| ==> idx[j] < idx[k])
    && (forall i :: 0 <= i < |was| ==> (free[i] <==> was[i] && i !in idx))
  }

  lemma NothingReserved(free: seq<bool>)
    ensures Reserved(free, free, [])
  {
  }

  lemma ReserveOne(was: seq<bool>, free: seq<bool>, idx: seq<nat>, i: nat)
    requires Reserved(was, free, idx) && i < |free| && free[i] && forall j :: 0 <= j < i ==> !free[j]
    requires |idx| > 0 ==> idx[|idx| - 1] < |free| && forall j :: 0 <= j <= idx[|idx| - 1] ==> !free[j]
    ensures Reserved(was, free[i := false], idx + [i])
  {
    assert |idx| > 0 ==> idx[|idx| - 1] < i;
  }

  lemma ThreeReserved(was: seq<bool>, free: seq<bool>, idx: seq<nat>)
    requires Reserved(was, free, idx) && |idx| == 3
    ensures idx[0] < idx[1] < idx[2] < |was| && was[idx[0]] && was[idx[1]] && was[idx[2]]
    ensures free == was[idx[0] := false][idx[1] := false][idx[2] := false]
  {
  }
}
