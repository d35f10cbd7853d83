// The single-producer single-consumer ring (metrics/include/spsc_ring.hpp), as interleaved atomic steps.
// Indices wrap modulo m, a multiple of the capacity; each side works from a cached copy of the other's
// index; an acquire load may return any value the index has had since the last one seen.
module SpscRings {

  datatype Producer<T> =
    | PIdle
    | PCheck(v: T, head: nat)   // own index loaded; is the cache full?
    | PLoad(v: T, head: nat)    // refresh the cached tail
    | PRecheck(v: T, head: nat)
    | PWrite(v: T, head: nat)
    | PStore(v: T, head: nat)   // slot written, not yet published

  datatype Consumer<T> =
    | CIdle
    | CCheck(tail: nat)
    | CLoad(tail: nat)
    | CRecheck(tail: nat)
    | CRead(tail: nat)
    | CStore(tail: nat, out: T) // slot read, not yet released

  // The shared memory and both program counters.
  datatype Ring<T> = Ring(
    m: nat, buf: seq<T>, head: nat, tail: nat, tailCache: nat, headCache: nat, p: Producer<T>, c: Consumer<T>)

  // What has happened: the indices as they would be without wrapping, and the values that went in and out.
  datatype Log<T> = Log(h: nat, t: nat, tc: nat, hc: nat, pushed: seq<T>, popped: seq<T>)

  datatype Sys<T> = Sys(r: Ring<T>, l: Log<T>)

  // Who moves. Starting a push names the value; a load names the value seen.
  datatype Move<T> = Push(v: T) | Produce(seenTail: nat) | Pop | Consume(seenHead: nat)

  // Loads return a value not older than the last one seen, and not from the future.
  predicate Enabled<T>(s: Sys<T>, a: Move<T>) {
    match a
    case Push(_) => s.r.p.PIdle?
    case Produce(seen) => !s.r.p.PIdle? && (s.r.p.PLoad? ==> s.l.tc <= seen <= s.l.t)
    case Pop => s.r.c.CIdle?
    case Consume(seen) => !s.r.c.CIdle? && (s.r.c.CLoad? ==> s.l.hc <= seen <= s.l.h)
  }

  // head - tail_cache_ in the index type.
  function Distance(a: nat, b: nat, m: nat): nat
    requires m > 0
  {
    (a - b) % m
  }

  predicate Shape<T>(r: Ring<T>) {
    0 < |r.buf| < r.m && r.m % |r.buf| == 0
  }

  function Produced<T>(s: Sys<T>, seen: nat): (z: Sys<T>)
    requires Shape(s.r)
    ensures z.r.m == s.r.m && |z.r.buf| == |s.r.buf|
  {
    var r, l := s.r, s.l;
    match r.p
    case PIdle => s
    case PCheck(v, head) =>
      Sys(r.(p := if Distance(head, r.tailCache, r.m) >= |r.buf| then PLoad(v, head) else PWrite(v, head)), l)
    case PLoad(v, head) => Sys(r.(tailCache := seen % r.m, p := PRecheck(v, head)), l.(tc := seen))
    case PRecheck(v, head) =>
      Sys(r.(p := if Distance(head, r.tailCache, r.m) >= |r.buf| then PIdle else PWrite(v, head)), l)
    case PWrite(v, head) => Sys(r.(buf := r.buf[head % |r.buf| := v], p := PStore(v, head)), l)
    case PStore(v, head) =>
      Sys(r.(head := (head + 1) % r.m, p := PIdle), l.(h := l.h + 1, pushed := l.pushed + [v]))
  }

  function Consumed<T>(s: Sys<T>, seen: nat): (z: Sys<T>)
    requires Shape(s.r)
    ensures z.r.m == s.r.m && |z.r.buf| == |s.r.buf|
  {
    var r, l := s.r, s.l;
    match r.c
    case CIdle => s
    case CCheck(tail) => Sys(r.(c := if tail == r.headCache then CLoad(tail) else CRead(tail)), l)
    case CLoad(tail) => Sys(r.(headCache := seen % r.m, c := CRecheck(tail)), l.(hc := seen))
    case CRecheck(tail) => Sys(r.(c := if tail == r.headCache then CIdle else CRead(tail)), l)
    case CRead(tail) => Sys(r.(c := CStore(tail, r.buf[tail % |r.buf|])), l)
    case CStore(tail, out) =>
      Sys(r.(tail := (tail + 1) % r.m, c := CIdle), l.(t := l.t + 1, popped := l.popped + [out]))
  }

  function Next<T>(s: Sys<T>, a: Move<T>): (z: Sys<T>)
    requires Shape(s.r)
    ensures z.r.m == s.r.m && |z.r.buf| == |s.r.buf|
  {
    match a
    case Push(v) => s.(r := s.r.(p := PCheck(v, s.r.head)))
    case Produce(seen) => Produced(s, seen)
    case Pop => s.(r := s.r.(c := CCheck(s.r.tail)))
    case Consume(seen) => Consumed(s, seen)
  }

  function Start<T>(m: nat, buf: seq<T>): Sys<T> {
    Sys(Ring(m, buf, 0, 0, 0, 0, PIdle, CIdle), Log(0, 0, 0, 0, [], []))
  }

  // ---- the invariant ----

  // The caches lag: tc <= t <= hc <= h, and the producer never runs further ahead than what it knows.
  ghost predicate Order<T>(l: Log<T>, cap: nat) {
    && l.tc <= l.t <= l.hc <= l.h <= l.tc + cap
    && |l.pushed| == l.h && l.popped == l.pushed[..l.t]
  }

  ghost predicate Wrapped<T>(r: Ring<T>, l: Log<T>)
    requires r.m > 0
  {
    && r.head == l.h % r.m && r.tail == l.t % r.m
    && r.tailCache == l.tc % r.m && r.headCache == l.hc % r.m
  }

  // Every value in flight is in its slot.
  ghost predicate Stored<T>(buf: seq<T>, l: Log<T>)
    requires |buf| > 0
  {
    l.h <= |l.pushed| && forall j: nat | l.t <= j < l.h :: buf[j % |buf|] == l.pushed[j]
  }

  ghost predicate ProducerOk<T>(p: Producer<T>, own: nat, buf: seq<T>, l: Log<T>)
    requires |buf| > 0
  {
    match p
    case PIdle => true
    case PCheck(_, head) => head == own
    case PLoad(_, head) => head == own
    case PRecheck(_, head) => head == own
    case PWrite(_, head) => head == own && l.h < l.tc + |buf|
    case PStore(v, head) => head == own && l.h < l.tc + |buf| && buf[l.h % |buf|] == v
  }

  ghost predicate ConsumerOk<T>(c: Consumer<T>, own: nat, l: Log<T>) {
    match c
    case CIdle => true
    case CCheck(tail) => tail == own
    case CLoad(tail) => tail == own
    case CRecheck(tail) => tail == own
    case CRead(tail) => tail == own && l.t < l.hc
    case CStore(tail, out) => tail == own && l.t < l.hc && l.hc <= |l.pushed| && out == l.pushed[l.t]
  }

  ghost predicate Inv<T>(s: Sys<T>) {
    && Shape(s.r) && Order(s.l, |s.r.buf|) && Wrapped(s.r, s.l) && Stored(s.r.buf, s.l)
    && ProducerOk(s.r.p, s.r.head, s.r.buf, s.l) && ConsumerOk(s.r.c, s.r.tail, s.l)
  }

  // ---- index arithmetic ----

  lemma MulPositive(m: int, k: int)
    requires m > 0 && k >= 1
    ensures m * k >= m
  {
    assert m * k == m + m * (k - 1);
  }

  lemma MulBound(x: int, k: int, m: int)
    requires x == m * k && -m < x < m
    ensures x == 0
  {
    if k >= 1 {
      MulPositive(m, k);
    } else if k <= -1 {
      MulPositive(m, -k);
    }
  }

  lemma ModUnique(x: int, r: int, q: int, m: int)
    requires 0 <= r < m && x == m * q + r
    ensures x % m == r
  {
    assert x % m - r == m * (q - x / m);
    MulBound(x % m - r, q - x / m, m);
  }

  // The wrapped difference is the true one while that is less than the modulus.
  lemma WrapDistance(a: nat, b: nat, m: nat)
    requires m > 0 && b <= a < b + m
    ensures Distance(a % m, b % m, m) == a - b
  {
    assert a % m - b % m == m * (b / m - a / m) + (a - b);
    ModUnique(a % m - b % m, a - b, b / m - a / m, m);
  }

  lemma WrapNext(a: nat, m: nat)
    requires m > 1
    ensures (a % m + 1) % m == (a + 1) % m
  {
    var q, r := a / m, a % m;
    assert a == m * q + r;
    if r + 1 < m {
      ModUnique(a + 1, r + 1, q, m);
    } else {
      MulNext(m, q);
      ModUnique(a + 1, 0, q + 1, m);
      ModUnique(m, 0, 1, m);
    }
  }

  lemma MulNext(m: int, q: int)
    ensures m * (q + 1) == m * q + m
  {
  }

  // Masking a wrapped index picks the slot of the unwrapped one.
  lemma WrapSlot(a: nat, m: nat, cap: nat)
    requires 0 < cap && m > 0 && m % cap == 0
    ensures (a % m) % cap == a % cap
  {
    var k, q, x := m / cap, a / m, a % m;
    Quotient(m, cap);
    Quotient(a, m);
    Quotient(x, cap);
    Regroup(m, cap, k, q, x / cap);
    ModUnique(a, x % cap, k * q + x / cap, cap);
  }

  lemma Quotient(a: nat, m: nat)
    requires m > 0
    ensures a == m * (a / m) + a % m && 0 <= a % m < m
  {
  }

  lemma Regroup(m: int, c: int, k: int, q: int, z: int)
    requires m == c * k
    ensures m * q + c * z == c * (k * q + z)
  {
    assert m * q == c * (k * q);
  }

  // Indices less than a capacity apart use different slots.
  lemma SlotsDiffer(a: nat, b: nat, cap: nat)
    requires 0 < cap && b < a < b + cap
    ensures a % cap != b % cap
  {
    if a % cap == b % cap {
      assert a - b == cap * (a / cap - b / cap);
      MulBound(a - b, a / cap - b / cap, cap);
    }
  }

  // ---- every step keeps the invariant ----

  lemma StartOk<T>(m: nat, buf: seq<T>)
    requires 0 < |buf| < m && m % |buf| == 0
    ensures Inv(Start(m, buf))
  {
  }

  lemma WriteKeeps<T>(s: Sys<T>, seen: nat)
    requires Inv(s) && s.r.p.PWrite?
    ensures Inv(Produced(s, seen))
  {
    var r, l, cap := s.r, s.l, |s.r.buf|;
    WrapSlot(l.h, r.m, cap);
    var buf := r.buf[r.p.head % cap := r.p.v];
    forall j: nat | l.t <= j < l.h ensures buf[j % cap] == l.pushed[j] {
      SlotsDiffer(l.h, j, cap);
      assert r.buf[j % cap] == l.pushed[j];
    }
  }

  lemma PublishKeeps<T>(s: Sys<T>, seen: nat)
    requires Inv(s) && s.r.p.PStore?
    ensures Inv(Produced(s, seen))
  {
    var r, l, cap := s.r, s.l, |s.r.buf|;
    WrapNext(l.h, r.m);
    var l' := l.(h := l.h + 1, pushed := l.pushed + [r.p.v]);
    forall j: nat | l'.t <= j < l'.h ensures r.buf[j % cap] == l'.pushed[j] {
      if j < l.h { assert r.buf[j % cap] == l.pushed[j]; }
    }
    assert l'.pushed[..l.t] == l.pushed[..l.t];
  }

  lemma CheckKeeps<T>(s: Sys<T>, seen: nat)
    requires Inv(s) && (s.r.p.PCheck? || s.r.p.PRecheck?)
    ensures Inv(Produced(s, seen))
  {
    hide Stored, Distance, ConsumerOk;
    WrapDistance(s.l.h, s.l.tc, s.r.m);
  }

  lemma LoadKeeps<T>(s: Sys<T>, seen: nat)
    requires Inv(s) && s.r.p.PLoad? && s.l.tc <= seen <= s.l.t
    ensures Inv(Produced(s, seen))
  {
    hide Stored, Distance;
    StoredElsewhere(s.r.buf, s.l, s.l.(tc := seen));
  }

  // Where the values are does not depend on what the caches say.
  lemma StoredElsewhere<T>(buf: seq<T>, l: Log<T>, l': Log<T>)
    requires |buf| > 0 && l'.h == l.h && l'.t == l.t && l'.pushed == l.pushed
    ensures Stored(buf, l) <==> Stored(buf, l')
  {
  }

  lemma ProducerKeeps<T>(s: Sys<T>, seen: nat)
    requires Inv(s) && Enabled(s, Produce(seen))
    ensures Inv(Produced(s, seen))
  {
    hide Produced, Inv;
    match s.r.p {
      case PCheck(_, _) => CheckKeeps(s, seen);
      case PLoad(_, _) => LoadKeeps(s, seen);
      case PRecheck(_, _) => CheckKeeps(s, seen);
      case PWrite(_, _) => WriteKeeps(s, seen);
      case PStore(_, _) => PublishKeeps(s, seen);
    }
  }

  lemma ReadKeeps<T>(s: Sys<T>, seen: nat)
    requires Inv(s) && s.r.c.CRead?
    ensures Inv(Consumed(s, seen))
  {
    WrapSlot(s.l.t, s.r.m, |s.r.buf|);
    assert s.r.buf[s.l.t % |s.r.buf|] == s.l.pushed[s.l.t];
  }

  lemma ReleaseKeeps<T>(s: Sys<T>, seen: nat)
    requires Inv(s) && s.r.c.CStore?
    ensures Inv(Consumed(s, seen))
  {
    WrapNext(s.l.t, s.r.m);
    assert s.l.pushed[..s.l.t + 1] == s.l.pushed[..s.l.t] + [s.l.pushed[s.l.t]];
  }

  // Equal wrapped indices are equal.
  lemma WrapEqual(a: nat, b: nat, m: nat)
    requires m > 0 && b <= a < b + m
    ensures a % m == b % m <==> a == b
  {
    WrapDistance(a, b, m);
    if a % m == b % m { assert Distance(a % m, b % m, m) == 0; }
  }

  lemma EmptyCheckKeeps<T>(s: Sys<T>, seen: nat)
    requires Inv(s) && (s.r.c.CCheck? || s.r.c.CRecheck?)
    ensures Inv(Consumed(s, seen))
  {
    hide Stored, ProducerOk;
    WrapEqual(s.l.hc, s.l.t, s.r.m);
  }

  lemma HeadLoadKeeps<T>(s: Sys<T>, seen: nat)
    requires Inv(s) && s.r.c.CLoad? && s.l.hc <= seen <= s.l.h
    ensures Inv(Consumed(s, seen))
  {
    hide Stored;
    StoredElsewhere(s.r.buf, s.l, s.l.(hc := seen));
  }

  lemma ConsumerKeeps<T>(s: Sys<T>, seen: nat)
    requires Inv(s) && Enabled(s, Consume(seen))
    ensures Inv(Consumed(s, seen))
  {
    hide Consumed, Inv;
    match s.r.c {
      case CCheck(_) => EmptyCheckKeeps(s, seen);
      case CLoad(_) => HeadLoadKeeps(s, seen);
      case CRecheck(_) => EmptyCheckKeeps(s, seen);
      case CRead(_) => ReadKeeps(s, seen);
      case CStore(_, _) => ReleaseKeeps(s, seen);
    }
  }

  lemma CallKeeps<T>(s: Sys<T>, a: Move<T>)
    requires Inv(s) && Enabled(s, a) && (a.Push? || a.Pop?)
    ensures Inv(Next(s, a))
  {
    hide Stored, Order;
  }

  lemma NextKeeps<T>(s: Sys<T>, a: Move<T>)
    requires Inv(s) && Enabled(s, a)
    ensures Inv(Next(s, a))
  {
    hide Inv, Shape, Produced, Consumed;
    InvShape(s);
    match a {
      case Produce(seen) => ProducerKeeps(s, seen);
      case Consume(seen) => ConsumerKeeps(s, seen);
      case Push(_) => CallKeeps(s, a);
      case Pop => CallKeeps(s, a);
    }
  }

  // ---- every run ----

  ghost predicate Allowed<T>(s: Sys<T>, run: seq<Move<T>>)
    requires Shape(s.r)
    decreases |run|
  {
    run == [] || (Enabled(s, run[0]) && Allowed(Next(s, run[0]), run[1..]))
  }

  function End<T>(s: Sys<T>, run: seq<Move<T>>): (e: Sys<T>)
    requires Shape(s.r)
    ensures Shape(e.r)
    decreases |run|
  {
    if run == [] then s else End(Next(s, run[0]), run[1..])
  }

  lemma {:induction false} RunKeeps<T>(s: Sys<T>, run: seq<Move<T>>)
    requires Inv(s) && Allowed(s, run)
    ensures Inv(End(s, run))
    decreases |run|
  {
    hide Next, Enabled, Inv;
    if run != [] {
      InvShape(s);
      NextKeeps(s, run[0]);
      RunKeeps(Next(s, run[0]), run[1..]);
    }
  }

  lemma InvShape<T>(s: Sys<T>)
    requires Inv(s)
    ensures Shape(s.r)
  {
  }

  // In every interleaving: what came out is a prefix of what went in, no more than the capacity is in
  // flight, and the producer is never at the slot the consumer is at.
  lemma FifoWithoutRaces<T>(m: nat, buf: seq<T>, run: seq<Move<T>>)
    requires 0 < |buf| < m && m % |buf| == 0 && Allowed(Start(m, buf), run)
    ensures var e := End(Start(m, buf), run);
            && e.l.popped <= e.l.pushed
            && |e.l.pushed| - |e.l.popped| <= |buf| == |e.r.buf|
            && (e.r.p.PWrite? ==> forall j: nat | e.l.t <= j < e.l.h :: e.r.p.head % |buf| != j % |buf|)
            && (e.r.p.PWrite? && e.r.c.CRead? ==> e.r.p.head % |buf| != e.r.c.tail % |buf|)
  {
    hide Stored;
    StartOk(m, buf);
    RunKeeps(Start(m, buf), run);
    var e := End(Start(m, buf), run);
    SameSize(Start(m, buf), run);
    if e.r.p.PWrite? { WriterIsAlone(e); }
  }

  lemma {:induction false} SameSize<T>(s: Sys<T>, run: seq<Move<T>>)
    requires Shape(s.r)
    ensures |End(s, run).r.buf| == |s.r.buf| && End(s, run).r.m == s.r.m
    decreases |run|
  {
    if run != [] { SameSize(Next(s, run[0]), run[1..]); }
  }

  lemma WriterIsAlone<T>(s: Sys<T>)
    requires Inv(s) && s.r.p.PWrite?
    ensures var cap := |s.r.buf|;
            && (forall j: nat | s.l.t <= j < s.l.h :: s.r.p.head % cap != j % cap)
            && (s.r.c.CRead? ==> s.r.p.head % cap != s.r.c.tail % cap)
  {
    hide Stored;
    var l, cap := s.l, |s.r.buf|;
    WrapSlot(l.h, s.r.m, cap);
    WrapSlot(l.t, s.r.m, cap);
    forall j: nat | l.t <= j < l.h ensures s.r.p.head % cap != j % cap {
      SlotsDiffer(l.h, j, cap);
    }
  }

  // A push is refused only if the ring was full when its tail was last read, a pop only if the ring was
  // empty when its head was.
  lemma RefusalsAreHonest<T>(s: Sys<T>, seen: nat)
    requires Inv(s)
    ensures s.r.p.PRecheck? && Produced(s, seen).r.p.PIdle? ==> s.l.h - s.l.tc == |s.r.buf|
    ensures s.r.c.CRecheck? && Consumed(s, seen).r.c.CIdle? ==> s.l.hc == s.l.t
  {
    hide Stored, Distance;
    WrapDistance(s.l.h, s.l.tc, s.r.m);
    WrapEqual(s.l.hc, s.l.t, s.r.m);
  }

  // ---- the class: each call, run alone, takes exactly these steps ----

  // A push that nobody interrupts: decide, then write and publish.
  function PushDecides<T>(s: Sys<T>, v: T): (z: Sys<T>)
    requires Shape(s.r)
    ensures Shape(z.r)
  {
    var checked := Produced(Next(s, Push(v)), s.l.t);
    if checked.r.p.PLoad? then Produced(Produced(checked, s.l.t), s.l.t) else checked
  }

  function SoloPush<T>(s: Sys<T>, v: T): (z: Sys<T>)
    requires Shape(s.r)
    ensures Shape(z.r)
  {
    var d := PushDecides(s, v);
    if d.r.p.PIdle? then d else Produced(Produced(d, s.l.t), s.l.t)
  }

  function PopDecides<T>(s: Sys<T>): (z: Sys<T>)
    requires Shape(s.r)
    ensures Shape(z.r)
  {
    var checked := Consumed(Next(s, Pop), s.l.h);
    if checked.r.c.CLoad? then Consumed(Consumed(checked, s.l.h), s.l.h) else checked
  }

  function SoloPop<T>(s: Sys<T>): (z: Sys<T>)
    requires Shape(s.r)
    ensures Shape(z.r)
  {
    var d := PopDecides(s);
    if d.r.c.CIdle? then d else Consumed(Consumed(d, s.l.h), s.l.h)
  }

  function InFlight<T>(l: Log<T>): seq<T> {
    if l.t <= l.h <= |l.pushed| then l.pushed[l.t..l.h] else []
  }

  lemma PushDecidesOk<T>(s: Sys<T>, v: T)
    requires Inv(s) && s.r.p.PIdle?
    ensures var d := PushDecides(s, v);
            && Inv(d) && d.l == s.l.(tc := d.l.tc) && d.r.c == s.r.c && |d.r.buf| == |s.r.buf|
            && if s.l.h - s.l.t < |s.r.buf| then d.r.p == PWrite(v, s.r.head) else d.r.p.PIdle?
  {
    hide Stored, Distance, ConsumerOk, Inv;
    InvShape(s);
    InvOrder(s);
    var s1 := Next(s, Push(v));
    NextKeeps(s, Push(v));
    var s2 := Produced(s1, s.l.t);
    NextKeeps(s1, Produce(s.l.t));
    WrapDistance(s.l.h, s.l.tc, s.r.m);
    WrapDistance(s.l.h, s.l.t, s.r.m);
    if s2.r.p.PLoad? {
      NextKeeps(s2, Produce(s.l.t));
      NextKeeps(Produced(s2, s.l.t), Produce(s.l.t));
    }
  }

  lemma InvOrder<T>(s: Sys<T>)
    requires Inv(s)
    ensures Order(s.l, |s.r.buf|) && Wrapped(s.r, s.l)
  {
  }

  // Alone, a push succeeds exactly when there is room, and appends.
  lemma SoloPushAppends<T>(s: Sys<T>, v: T)
    requires Inv(s) && s.r.p.PIdle?
    ensures var z, room := SoloPush(s, v), |InFlight(s.l)| < |s.r.buf|;
            && Inv(z) && z.r.p.PIdle? && z.r.c == s.r.c
            && InFlight(z.l) == (if room then InFlight(s.l) + [v] else InFlight(s.l))
            && z.l.popped == s.l.popped
  {
    hide Stored, Distance, ConsumerOk, Inv, PushDecides;
    PushDecidesOk(s, v);
    InvOrder(s);
    InvShape(s);
    var d := PushDecides(s, v);
    if !d.r.p.PIdle? {
      NextKeeps(d, Produce(s.l.t));
      NextKeeps(Produced(d, s.l.t), Produce(s.l.t));
    }
  }

  lemma PopDecidesOk<T>(s: Sys<T>)
    requires Inv(s) && s.r.c.CIdle?
    ensures var d := PopDecides(s);
            && Inv(d) && d.l == s.l.(hc := d.l.hc) && d.r.p == s.r.p && d.r.buf == s.r.buf
            && if s.l.t < s.l.h then d.r.c == CRead(s.r.tail) else d.r.c.CIdle?
  {
    hide Stored, Distance, ProducerOk, Inv;
    InvShape(s);
    InvOrder(s);
    var s1 := Next(s, Pop);
    NextKeeps(s, Pop);
    var s2 := Consumed(s1, s.l.h);
    NextKeeps(s1, Consume(s.l.h));
    WrapEqual(s.l.hc, s.l.t, s.r.m);
    WrapEqual(s.l.h, s.l.t, s.r.m);
    if s2.r.c.CLoad? {
      NextKeeps(s2, Consume(s.l.h));
      NextKeeps(Consumed(s2, s.l.h), Consume(s.l.h));
    }
  }

  lemma SoloPopTakes<T>(s: Sys<T>)
    requires Inv(s) && s.r.c.CIdle?
    ensures var z, some := SoloPop(s), InFlight(s.l) != [];
            && Inv(z) && z.r.c.CIdle? && z.r.p == s.r.p
            && InFlight(z.l) == (if some then InFlight(s.l)[1..] else [])
            && z.l.popped == (if some then s.l.popped + [InFlight(s.l)[0]] else s.l.popped)
  {
    hide Stored, ProducerOk, Inv, PopDecides;
    PopDecidesOk(s);
    InvOrder(s);
    InvShape(s);
    var d := PopDecides(s);
    if !d.r.c.CIdle? {
      NextKeeps(d, Consume(s.l.h));
      NextKeeps(Consumed(d, s.l.h), Consume(s.l.h));
      ReadsTheOldest(d);
    }
  }

  // What a pop is about to read is the oldest value in flight.
  lemma ReadsTheOldest<T>(s: Sys<T>)
    requires Inv(s) && s.r.c.CRead?
    ensures |s.r.buf| > 0 && s.l.t < |s.l.pushed| && s.r.buf[s.r.c.tail % |s.r.buf|] == s.l.pushed[s.l.t]
  {
    WrapSlot(s.l.t, s.r.m, |s.r.buf|);
    assert s.r.buf[s.l.t % |s.r.buf|] == s.l.pushed[s.l.t];
  }

  class SpscRing<T> {
    const m: nat // values of the index type
    const buf: array<T>
    var head: nat
    var tailCache: nat
    var tail: nat
    var headCache: nat
    ghost var log: Log<T>

    ghost function State(): Sys<T>
      reads this, buf
    {
      Sys(Ring(m, buf[..], head, tail, tailCache, headCache, PIdle, CIdle), log)
    }

    ghost predicate Valid()
      reads this, buf
    {
      Inv(State())
    }

    constructor (m: nat, cap: nat, blank: T)
      requires 0 < cap < m && m % cap == 0
      ensures Valid() && buf.Length == cap && log == Log(0, 0, 0, 0, [], []) && fresh(buf)
    {
      this.m := m;
      buf := new T[cap](_ => blank);
      head, tailCache, tail, headCache := 0, 0, 0, 0;
      log := Log(0, 0, 0, 0, [], []);
      new;
      StartOk(m, buf[..]);
    }

    method TryPush(v: T) returns (ok: bool)
      requires Valid()
      modifies this, buf
      ensures Valid() && State() == SoloPush(old(State()), v)
      ensures ok <==> |InFlight(old(log))| < buf.Length
      ensures InFlight(log) == if ok then InFlight(old(log)) + [v] else InFlight(old(log))
    {
      hide Stored, Inv;
      InvShape(State());
      SoloPushAppends(State(), v);
      ghost var s := State();
      var cap := buf.Length;
      var h := head;
      if Distance(h, tailCache, m) >= cap {
        tailCache, log := tail, log.(tc := log.t);
        InvWrapped(s);
        if Distance(h, tailCache, m) >= cap {
          return false;
        }
      }
      buf[h % cap] := v;
      head, log := (h + 1) % m, log.(h := log.h + 1, pushed := log.pushed + [v]);
      ok := true;
    }

    method TryPop() returns (out: T, ok: bool)
      requires Valid()
      modifies this
      ensures Valid() && State() == SoloPop(old(State()))
      ensures ok <==> InFlight(old(log)) != []
      ensures ok ==> out == InFlight(old(log))[0]
      ensures InFlight(log) == if ok then InFlight(old(log))[1..] else []
    {
      hide Stored, Inv;
      InvShape(State());
      SoloPopTakes(State());
      ghost var s := State();
      var t := tail;
      out := buf[0];
      if t == headCache {
        headCache, log := head, log.(hc := log.h);
        InvWrapped(s);
        if t == headCache {
          return out, false;
        }
      }
      out := buf[t % buf.Length];
      tail, log := (t + 1) % m, log.(t := log.t + 1, popped := log.popped + [out]);
      ok := true;
      assert State() == SoloPop(s);
      assert log.popped[|s.l.popped|] == out;
    }
  }

  lemma InvWrapped<T>(s: Sys<T>)
    requires Inv(s)
    ensures s.r.m > 0 && s.r.head == s.l.h % s.r.m && s.r.tail == s.l.t % s.r.m
  {
  }
}
