/**
 Request bodies kept in memory or in a temporary file behind one interface, and the counters of what is
 open. A storage is a body, a cursor and a closed flag; the two kinds differ only in how they read.
 */
module BodyStorage {
  import opened MachineTypes

  datatype Kind = Memory | Disk

  datatype Body = Body(data: seq<Byte>, pos: nat, closed: bool)

  datatype Whence = Start | Current | End | Invalid

  datatype Op = Read(n: nat) | Seek(offset: int, whence: Whence) | Bytes | Close | Size

  datatype Error = None | Closed | EndOfFile | BadSeek

  datatype Answer = Answer(bytes: seq<Byte>, number: int, error: Error)

  /** The most one read system call is asked for. */
  const MAX_READ := 0x4000_0000

  function Min(a: nat, b: nat): nat {
    if a < b then a else b
  }

  function Left(s: Body): nat {
    if s.pos < |s.data| then |s.data| - s.pos else 0
  }

  function Take(s: Body, n: nat): (Answer, Body)
    requires n <= Left(s)
  {
    var chunk := if n == 0 then [] else s.data[s.pos..s.pos + n];
    (Answer(chunk, n, None), s.(pos := s.pos + n))
  }

  /** bytes.Reader.Read. */
  function ReadMemory(s: Body, n: nat): (Answer, Body) {
    if Left(s) == 0 then (Answer([], 0, EndOfFile), s) else Take(s, Min(n, Left(s)))
  }

  /** os.File.Read of a regular file. */
  function ReadDisk(s: Body, n: nat): (Answer, Body) {
    if n == 0 then (Answer([], 0, None), s)
    else if Left(s) == 0 then (Answer([], 0, EndOfFile), s)
    else Take(s, Min(Min(n, MAX_READ), Left(s)))
  }

  function SeekBase(s: Body, whence: Whence): nat {
    match whence
    case Current => s.pos
    case End => |s.data|
    case _ => 0
  }

  function SeekTo(s: Body, offset: int, whence: Whence): (Answer, Body) {
    var target := SeekBase(s, whence) + offset;
    if whence == Invalid || target < 0 || target > MAX_INT then (Answer([], 0, BadSeek), s)
    else (Answer([], target, None), s.(pos := target))
  }

  /** One call on a storage. */
  function Do(kind: Kind, s: Body, op: Op): (Answer, Body) {
    if op == Close then (Answer([], 0, None), s.(closed := true))
    else if op == Size then (Answer([], |s.data|, None), s)
    else if s.closed then (Answer([], 0, Closed), s)
    else
      match op
      case Read(n) => if kind == Memory then ReadMemory(s, n) else ReadDisk(s, n)
      case Seek(offset, whence) => SeekTo(s, offset, whence)
      case _ => (Answer(s.data, |s.data|, None), s)
  }

  // The two kinds behave alike

  /** A read that tells the kinds apart: of no bytes at the end, or of more than one system call returns. */
  predicate Telling(s: Body, op: Op) {
    !s.closed && op.Read? && ((op.n == 0 && Left(s) == 0) || Min(op.n, Left(s)) > MAX_READ)
  }

  lemma DoAlike(s: Body, op: Op)
    ensures Do(Memory, s, op).0 == Do(Disk, s, op).0 <==> !Telling(s, op)
    ensures !Telling(s, op) ==> Do(Memory, s, op).1 == Do(Disk, s, op).1
  {
    if !s.closed && op.Read? && Min(op.n, Left(s)) > MAX_READ {
      assert Do(Memory, s, op).0.number > MAX_READ;
      assert Do(Disk, s, op).0.number == MAX_READ;
    }
  }

  function Answers(kind: Kind, s: Body, ops: seq<Op>): seq<Answer>
    decreases |ops|
  {
    if ops == [] then []
    else
      var (a, next) := Do(kind, s, ops[0]);
      [a] + Answers(kind, next, ops[1..])
  }

  predicate SomeTelling(s: Body, ops: seq<Op>)
    decreases |ops|
  {
    ops != [] && (Telling(s, ops[0]) || SomeTelling(Do(Memory, s, ops[0]).1, ops[1..]))
  }

  /** Memory and disk storages of equal content answer a sequence of calls identically exactly when no
      call of the sequence is a telling read. */
  lemma {:induction false} KindsAgreeIff(s: Body, ops: seq<Op>)
    ensures Answers(Memory, s, ops) == Answers(Disk, s, ops) <==> !SomeTelling(s, ops)
    decreases |ops|
  {
    if ops != [] {
      DoAlike(s, ops[0]);
      var m, d := Answers(Memory, s, ops), Answers(Disk, s, ops);
      assert m[0] == Do(Memory, s, ops[0]).0 && d[0] == Do(Disk, s, ops[0]).0;
      if !Telling(s, ops[0]) {
        var next := Do(Memory, s, ops[0]).1;
        KindsAgreeIff(next, ops[1..]);
        assert m[1..] == Answers(Memory, next, ops[1..]) && d[1..] == Answers(Disk, next, ops[1..]);
      }
    }
  }

  /** A body read to its end: a further read of no bytes reports the end only in memory. */
  lemma DrainedBodyTells(s: Body)
    requires !s.closed && Left(s) <= MAX_READ
    ensures Answers(Memory, s, [Read(Left(s)), Read(0)]) != Answers(Disk, s, [Read(Left(s)), Read(0)])
  {
    var ops := [Read(Left(s)), Read(0)];
    KindsAgreeIff(s, ops);
    var next := Do(Memory, s, ops[0]).1;
    assert !next.closed && Left(next) == 0;
    assert ops[1..][0] == Read(0);
    assert SomeTelling(next, ops[1..]);
  }

  function After(kind: Kind, s: Body, ops: seq<Op>): Body
    decreases |ops|
  {
    if ops == [] then s else After(kind, Do(kind, s, ops[0]).1, ops[1..])
  }

  /** Whatever is called in between, Bytes returns the whole body and leaves the cursor, until Close. */
  lemma {:induction false} BytesAlways(kind: Kind, s: Body, ops: seq<Op>)
    ensures var end := After(kind, s, ops);
            && end.data == s.data
            && (end.closed <==> s.closed || Close in ops)
            && Do(kind, end, Bytes).1 == end
            && (!end.closed ==> Do(kind, end, Bytes).0 == Answer(s.data, |s.data|, None))
    decreases |ops|
  {
    if ops != [] {
      BytesAlways(kind, Do(kind, s, ops[0]).1, ops[1..]);
      assert ops == [ops[0]] + ops[1..];
    }
  }

  function Gathered(answers: seq<Answer>): seq<Byte> {
    if answers == [] then [] else answers[0].bytes + Gathered(answers[1..])
  }

  /** One read returns the bytes it moves the cursor over. */
  lemma ReadMoves(kind: Kind, s: Body, n: nat)
    requires !s.closed && s.pos <= |s.data|
    ensures var (a, next) := Do(kind, s, Read(n));
            && next == s.(pos := next.pos) && s.pos <= next.pos <= |s.data|
            && a.bytes == s.data[s.pos..next.pos]
  {
  }

  lemma GatherFirst(kind: Kind, s: Body, ops: seq<Op>)
    requires ops != []
    ensures var (a, next) := Do(kind, s, ops[0]);
            && Gathered(Answers(kind, s, ops)) == a.bytes + Gathered(Answers(kind, next, ops[1..]))
            && After(kind, s, ops) == After(kind, next, ops[1..])
  {
    var (a, next) := Do(kind, s, ops[0]);
    assert ([a] + Answers(kind, next, ops[1..]))[1..] == Answers(kind, next, ops[1..]);
  }

  lemma SlicesJoin(data: seq<Byte>, a: nat, b: nat, c: nat)
    requires a <= b <= c <= |data|
    ensures data[a..b] + data[b..c] == data[a..c]
  {
  }

  /** Reading onwards from the cursor returns the body without gaps or repetition. */
  lemma {:induction false} ReadsGather(kind: Kind, s: Body, ops: seq<Op>)
    requires !s.closed && s.pos <= |s.data| && forall op :: op in ops ==> op.Read?
    ensures var end := After(kind, s, ops);
            && s.pos <= end.pos <= |s.data|
            && Gathered(Answers(kind, s, ops)) == s.data[s.pos..end.pos]
    decreases |ops|
  {
    if ops != [] {
      var next := Do(kind, s, ops[0]).1;
      assert ops[0] in ops;
      ReadMoves(kind, s, ops[0].n);
      GatherFirst(kind, s, ops);
      ReadsGather(kind, next, ops[1..]);
      SlicesJoin(s.data, s.pos, next.pos, After(kind, s, ops).pos);
    }
  }

  // Counters

  datatype Counters = Counters(activeDisk: int, diskBytes: int, activeMemory: int, memoryBytes: int,
                               diskHits: int, memoryHits: int)

  function Opened(c: Counters, kind: Kind, size: nat): Counters {
    match kind
    case Disk => c.(activeDisk := c.activeDisk + 1, diskBytes := c.diskBytes + size)
    case Memory => c.(activeMemory := c.activeMemory + 1, memoryBytes := c.memoryBytes + size)
  }

  function AtLeastZero(x: int): int {
    if x < 0 then 0 else x
  }

  function Released(c: Counters, kind: Kind, size: nat): Counters {
    match kind
    case Disk => c.(activeDisk := AtLeastZero(c.activeDisk - 1), diskBytes := AtLeastZero(c.diskBytes - size))
    case Memory => c.(activeMemory := c.activeMemory - 1, memoryBytes := c.memoryBytes - size)
  }

  function Hit(c: Counters, kind: Kind): Counters {
    match kind
    case Disk => c.(diskHits := c.diskHits + 1)
    case Memory => c.(memoryHits := c.memoryHits + 1)
  }

  // Creation

  datatype Config = Config(enabled: bool, threshold: int, maxBytes: int)

  /** IsDiskCacheAvailable. */
  predicate Available(cfg: Config, c: Counters, size: int) {
    cfg.enabled && Wrap(c.diskBytes + size) <= cfg.maxBytes
  }

  /** What one creation gets from outside: the stream, whether reading it works, whether temporary files do. */
  datatype Input = Input(stream: seq<Byte>, contentLength: int, maxBytes: int, readOk: bool, diskOk: bool)

  datatype Created = Created(kind: Kind, data: seq<Byte>) | TooLarge | Failed

  /** What io.LimitReader lets through. */
  function Limited(stream: seq<Byte>, n: int): seq<Byte> {
    if n <= 0 then [] else if n < |stream| then stream[..n] else stream
  }

  /** CreateBodyStorage: the kind chosen for data in memory. */
  function KindFor(cfg: Config, c: Counters, size: nat, diskOk: bool): Kind {
    if cfg.enabled && size >= cfg.threshold && Available(cfg, c, size) && diskOk then Disk else Memory
  }

  predicate StraightToDisk(cfg: Config, c: Counters, x: Input) {
    cfg.enabled && x.contentLength > 0 && x.contentLength >= cfg.threshold && Available(cfg, c, x.contentLength)
  }

  /** CreateBodyStorageFromReader. */
  function Create(cfg: Config, c: Counters, x: Input): Created {
    var data := Limited(x.stream, Wrap(x.maxBytes + 1));
    if StraightToDisk(cfg, c, x) && !x.diskOk then Failed
    else if !x.readOk then Failed
    else if |data| > x.maxBytes then TooLarge
    else if StraightToDisk(cfg, c, x) then Created(Disk, data)
    else Created(KindFor(cfg, c, |data|, x.diskOk), data)
  }

  function CountersAfter(c: Counters, r: Created): Counters {
    if r.Created? then Hit(Opened(c, r.kind, |r.data|), r.kind) else c
  }

  /** What a creation should come to, whichever way the data goes. */
  predicate Proper(x: Input, r: Created) {
    if |x.stream| <= x.maxBytes then r.Created? && r.data == x.stream else r.TooLarge?
  }

  /** Without I/O failures a creation keeps the exact stream or refuses it as too large, exactly when the
      limit is below the largest 64-bit number or there is nothing to read. */
  lemma CreateIff(cfg: Config, c: Counters, x: Input)
    requires x.readOk && x.diskOk && -MAX_INT - 1 <= x.maxBytes <= MAX_INT && |x.stream| <= MAX_INT
    ensures Proper(x, Create(cfg, c, x)) <==> x.maxBytes < MAX_INT || x.stream == []
  {
  }

  // Runs

  datatype Stored = Stored(kind: Kind, body: Body)

  datatype World = World(counters: Counters, stores: seq<Stored>)

  datatype Event = New(cfg: Config, input: Input) | Use(index: nat, op: Op)

  function Step(w: World, e: Event): World {
    match e
    case New(cfg, input) =>
      var r := Create(cfg, w.counters, input);
      if r.Created? then World(CountersAfter(w.counters, r), w.stores + [Stored(r.kind, Body(r.data, 0, false))])
      else w.(counters := CountersAfter(w.counters, r))
    case Use(i, op) =>
      if i >= |w.stores| then w
      else
        var s := w.stores[i];
        World(if op == Close && !s.body.closed then Released(w.counters, s.kind, |s.body.data|) else w.counters,
              w.stores[i := s.(body := Do(s.kind, s.body, op).1)])
  }

  function Run(w: World, events: seq<Event>): World {
    if events == [] then w else Step(Run(w, events[..|events| - 1]), events[|events| - 1])
  }

  /** The stream is kept in full, open and unread, and counted once; or nothing at all changes. */
  predicate KeptInFull(w: World, x: Input, after: World) {
    if |x.stream| <= x.maxBytes then
      |after.stores| == |w.stores| + 1 &&
      var s := after.stores[|w.stores|];
      && after.stores == w.stores + [s]
      && s.body == Body(x.stream, 0, false)
      && after.counters == Hit(Opened(w.counters, s.kind, |x.stream|), s.kind)
    else after == w
  }

  /** With the largest 64-bit number as the limit, the limit plus one wraps and an empty body is stored. */
  lemma LargestLimitStoresNothing(w: World, cfg: Config, x: Input)
    requires x.readOk && x.diskOk && x.maxBytes == MAX_INT && x.stream != []
    ensures var after := Step(w, New(cfg, x));
            |after.stores| == |w.stores| + 1 && after.stores[|w.stores|].body == Body([], 0, false)
  {
    assert Wrap(x.maxBytes + 1) == -MAX_INT - 1;
    assert Limited(x.stream, Wrap(x.maxBytes + 1)) == [];
  }

  /** Without I/O failures a creation keeps the exact stream or changes nothing, whichever way the data
      goes, exactly when the limit is below the largest 64-bit number or there is nothing to read. */
  lemma CreateKeepsIff(w: World, cfg: Config, x: Input)
    requires x.readOk && x.diskOk && -MAX_INT - 1 <= x.maxBytes <= MAX_INT && |x.stream| <= MAX_INT
    ensures KeptInFull(w, x, Step(w, New(cfg, x))) <==> x.maxBytes < MAX_INT || x.stream == []
  {
    CreateIff(cfg, w.counters, x);
    if x.maxBytes == MAX_INT && x.stream != [] {
      LargestLimitStoresNothing(w, cfg, x);
    }
  }

  function Share(s: Stored, kind: Kind, bytes: bool): nat {
    if s.kind != kind || s.body.closed then 0 else if bytes then |s.body.data| else 1
  }

  /** The number, or the total size, of the open storages of a kind. */
  function Total(stores: seq<Stored>, kind: Kind, bytes: bool): nat {
    if stores == [] then 0
    else Total(stores[..|stores| - 1], kind, bytes) + Share(stores[|stores| - 1], kind, bytes)
  }

  predicate Conserved(w: World) {
    && w.counters.activeDisk == Total(w.stores, Disk, false)
    && w.counters.diskBytes == Total(w.stores, Disk, true)
    && w.counters.activeMemory == Total(w.stores, Memory, false)
    && w.counters.memoryBytes == Total(w.stores, Memory, true)
  }

  lemma TotalAppend(stores: seq<Stored>, s: Stored, kind: Kind, bytes: bool)
    ensures Total(stores + [s], kind, bytes) == Total(stores, kind, bytes) + Share(s, kind, bytes)
  {
    assert (stores + [s])[..|stores|] == stores;
  }

  lemma {:induction false} TotalUpdate(stores: seq<Stored>, i: nat, s: Stored, kind: Kind, bytes: bool)
    requires i < |stores|
    ensures Total(stores[i := s], kind, bytes) ==
            Total(stores, kind, bytes) - Share(stores[i], kind, bytes) + Share(s, kind, bytes)
    decreases |stores|
  {
    var n := |stores| - 1;
    if i < n {
      TotalUpdate(stores[..n], i, s, kind, bytes);
      assert stores[i := s][..n] == stores[..n][i := s];
    } else {
      assert stores[i := s][..n] == stores[..n];
    }
  }

  lemma NewConserves(w: World, cfg: Config, input: Input)
    requires Conserved(w)
    ensures Conserved(Step(w, New(cfg, input)))
  {
    var r := Create(cfg, w.counters, input);
    if r.Created? {
      var s := Stored(r.kind, Body(r.data, 0, false));
      TotalAppend(w.stores, s, Disk, false);
      TotalAppend(w.stores, s, Disk, true);
      TotalAppend(w.stores, s, Memory, false);
      TotalAppend(w.stores, s, Memory, true);
    }
  }

  lemma DoKeepsShare(s: Stored, op: Op, kind: Kind, bytes: bool)
    ensures var t := s.(body := Do(s.kind, s.body, op).1);
            && t.body.data == s.body.data && t.body.closed == (s.body.closed || op == Close)
            && Share(t, kind, bytes) == if op == Close then 0 else Share(s, kind, bytes)
  {
  }

  lemma UseConserves(w: World, i: nat, op: Op)
    requires Conserved(w) && i < |w.stores|
    ensures Conserved(Step(w, Use(i, op)))
  {
    var s := w.stores[i];
    var t := s.(body := Do(s.kind, s.body, op).1);
    forall kind, bytes
      ensures Total(w.stores[i := t], kind, bytes) ==
              Total(w.stores, kind, bytes) - if op == Close then Share(s, kind, bytes) else 0
    {
      TotalUpdate(w.stores, i, t, kind, bytes);
      DoKeepsShare(s, op, kind, bytes);
    }
  }

  /** Over every run, the counters equal the number and the total size of the open storages of each kind. */
  lemma {:induction false} RunConserves(w: World, events: seq<Event>)
    requires Conserved(w)
    ensures Conserved(Run(w, events))
    decreases |events|
  {
    if events != [] {
      var before := Run(w, events[..|events| - 1]);
      RunConserves(w, events[..|events| - 1]);
      match events[|events| - 1]
      case New(cfg, input) => NewConserves(before, cfg, input);
      case Use(i, op) =>
        if i < |before.stores| {
          UseConserves(before, i, op);
        }
    }
  }
}
