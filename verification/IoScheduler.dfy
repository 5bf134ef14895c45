/** The scheduler of the I/O nodes of a task: for each it selects a bank of the scratchpad,
    an address in the bank, and the dependence of its command on the last two tasks. */
module IoScheduler {
  import opened Scratchpad
  import opened Arithmetic
  import Collections

  // iob: the I/O block that occupies the bank; used: 0 free, 1 loaded data, 2 data to store
  datatype BankStatus = BankStatus(iob: int, used: int, start: int, end: int)

  const FREE := BankStatus(0, 0, 0, 0)

  // An I/O node of the graph, and the index of the I/O block that it is mapped to.
  datatype Io = Io(memRefName: string, memSize: nat, isStore: bool, iob: int)

  datatype IoInfo = IoInfo(addr: int, iobAddr: int, dep: int, isStore: bool)

  // The bank status that a task leaves.
  ghost predicate Shows(status: seq<BankStatus>, uses: map<int, Use>) {
    && (forall b | b in uses :: 0 <= b < |status|)
    && forall b {:trigger status[b]} | 0 <= b < |status| ::
         if b in uses then
           && status[b].used == (if uses[b].isStore then 2 else 1)
           && Region(status[b].start, status[b].end) == uses[b].region
         else status[b] == FREE
  }

  predicate Tidy(s: BankStatus, width: int, bankSize: int)
    requires width > 0
  {
    s.start <= bankSize && 0 <= s.used <= 2 && 0 <= s.start <= s.end && s.start % width == 0 && s.end % width == 0
  }

  // How a bank stands towards a new use: what the last task, and the one before it, did there.
  predicate Room(last: BankStatus, size: int, bankSize: int) {
    size <= bankSize - last.end || size <= last.start
  }

  // The last task's use of the bank is in the way.
  predicate LastBlocks(last: BankStatus, isStore: bool, size: int, bankSize: int) {
    if last.used == 2 then !isStore || !Room(last, size, bankSize)
    else last.used == 1 && !isStore && !Room(last, size, bankSize)
  }

  predicate OlderBlocks(older: BankStatus, isStore: bool) { older.used == 2 && !isStore }

  predicate SameKind(last: BankStatus, isStore: bool) { last.used == if isStore then 2 else 1 }

  // A region of this size has a place in the bank apart from what the last task has there.
  ghost predicate HasPlace(last: BankStatus, size: int, bankSize: int) {
    exists start {:trigger PlacedAt(last, size, bankSize, start)} :: PlacedAt(last, size, bankSize, start)
  }

  predicate PlacedAt(last: BankStatus, size: int, bankSize: int, start: int) {
    0 <= start && start + size <= bankSize && (start + size <= last.start || last.end <= start)
  }

  // A use of the bank would meet no store of the last two tasks, if it is a load, and would have a
  // place apart from a use of the same kind.
  ghost predicate Untouched(last: BankStatus, older: BankStatus, isStore: bool, size: int, bankSize: int) {
    && (!isStore ==> last.used != 2 && older.used != 2)
    && (SameKind(last, isStore) ==> HasPlace(last, size, bankSize))
  }

  lemma RoomIsPlace(last: BankStatus, width: int, size: int, bankSize: int)
    requires width > 0 && Tidy(last, width, bankSize) && size >= 0
    ensures Room(last, size, bankSize) <==> HasPlace(last, size, bankSize)
  {
    if size <= bankSize - last.end {
      assert PlacedAt(last, size, bankSize, last.end);
    } else if size <= last.start {
      assert PlacedAt(last, size, bankSize, 0);
    }
  }

  lemma FreeIsUntouched(last: BankStatus, older: BankStatus, width: int, isStore: bool, size: int, bankSize: int)
    requires width > 0 && Tidy(last, width, bankSize) && size >= 0
    ensures !LastBlocks(last, isStore, size, bankSize) && !OlderBlocks(older, isStore) <==> Untouched(last, older, isStore, size, bankSize)
  {
    RoomIsPlace(last, width, size, bankSize);
  }

  // The banks of the list that are not taken.
  predicate Left(banks: seq<int>, taken: set<int>, b: int) { b in banks && b !in taken }

  // dep is the weakest code that any bank that is left allows: none, if a use meets nothing in one;
  // the one for the last execution, only if the last task is in the way in all; and the one for its
  // stores, only if it stores in all.
  ghost predicate Weakest(last: seq<BankStatus>, older: seq<BankStatus>, banks: seq<int>, taken: set<int>,
                          isStore: bool, size: int, bankSize: int, dep: int)
    requires |last| == |older| && forall j | 0 <= j < |banks| :: 0 <= banks[j] < |last|
  {
    && (dep == 0 <==> exists b :: Left(banks, taken, b) && Untouched(last[b], older[b], isStore, size, bankSize))
    && (!isStore && dep == LD_DEP_EX_LAST_TASK ==> forall b | Left(banks, taken, b) :: !Untouched(last[b], FREE, isStore, size, bankSize))
    && (!isStore && dep == LD_DEP_ST_LAST_TASK ==> forall b | Left(banks, taken, b) :: last[b].used == 2)
  }

  // The banks of the first k I/Os.
  function TakenBy(order: seq<int>, bankOf: map<int, int>, k: nat): set<int> {
    set j | 0 <= j < k && j < |order| && order[j] in bankOf :: bankOf[order[j]]
  }

  // Every I/O of the list has got the weakest code that the banks allow that were left for it.
  ghost predicate DepsWeakest(sp: Spad, last: seq<BankStatus>, older: seq<BankStatus>, infos: map<int, IoInfo>, ios: map<int, Io>,
                              order: seq<int>, bankOf: map<int, int>)
    requires sp.Ok() && |last| == |older| == sp.bankNum
  {
    forall k {:trigger DepWeakest(sp, last, older, infos, ios, order, bankOf, k)} | 0 <= k < |order| ::
      DepWeakest(sp, last, older, infos, ios, order, bankOf, k)
  }

  ghost predicate DepWeakest(sp: Spad, last: seq<BankStatus>, older: seq<BankStatus>, infos: map<int, IoInfo>, ios: map<int, Io>,
                             order: seq<int>, bankOf: map<int, int>, k: nat)
    requires sp.Ok() && |last| == |older| == sp.bankNum && k < |order|
  {
    && order[k] in infos && order[k] in ios && sp.Connected(ios[order[k]].iob)
    && var io := ios[order[k]];
      Weakest(last, older, sp.iobToSpadBanks[io.iob], TakenBy(order, bankOf, k),
              io.isStore, AlignUp(io.memSize, sp.spadDataByte), sp.sizeofBank, infos[order[k]].dep)
  }

  lemma DepsMore(sp: Spad, last: seq<BankStatus>, older: seq<BankStatus>, infos: map<int, IoInfo>, infos': map<int, IoInfo>, ios: map<int, Io>,
                 done: seq<int>, bankOf: map<int, int>, id: int, b: int)
    requires sp.Ok() && |last| == |older| == sp.bankNum && DepsWeakest(sp, last, older, infos, ios, done, bankOf)
    requires id !in done && id in ios && sp.Connected(ios[id].iob) && id in infos' && infos' == infos[id := infos'[id]]
    requires Weakest(last, older, sp.iobToSpadBanks[ios[id].iob], TakenBy(done, bankOf, |done|),
                     ios[id].isStore, AlignUp(ios[id].memSize, sp.spadDataByte), sp.sizeofBank, infos'[id].dep)
    ensures DepsWeakest(sp, last, older, infos', ios, done + [id], bankOf[id := b])
  {
    var order, bankOf' := done + [id], bankOf[id := b];
    forall k | 0 <= k < |order|
      ensures DepWeakest(sp, last, older, infos', ios, order, bankOf', k)
    {
      TakenAlike(done, bankOf, id, b, k);
      if k < |done| {
        assert order[k] == done[k] != id;
        assert DepWeakest(sp, last, older, infos, ios, done, bankOf, k);
      }
    }
  }

  lemma TakenAlike(done: seq<int>, bankOf: map<int, int>, id: int, b: int, k: nat)
    requires id !in done && k <= |done|
    ensures TakenBy(done + [id], bankOf[id := b], k) == TakenBy(done, bankOf, k)
  {
    var order, bankOf' := done + [id], bankOf[id := b];
    forall x
      ensures x in TakenBy(order, bankOf', k) <==> x in TakenBy(done, bankOf, k)
    {
      if x in TakenBy(done, bankOf, k) {
        var j :| 0 <= j < k && done[j] in bankOf && bankOf[done[j]] == x;
        assert order[j] == done[j] != id;
      }
      if x in TakenBy(order, bankOf', k) {
        var j :| 0 <= j < k && order[j] in bankOf' && bankOf'[order[j]] == x;
        assert order[j] == done[j] != id;
      }
    }
  }

  // The banks in use are those of the I/Os that have got one.
  lemma UsesAreTaken(sp: Spad, infos: map<int, IoInfo>, ios: map<int, Io>, done: seq<int>, bankOf: map<int, int>, uses: map<int, Use>)
    requires sp.Ok() && Allocated(sp, infos, ios, done, bankOf, uses)
    ensures forall b :: b in TakenBy(done, bankOf, |done|) <==> b in uses
  {
    forall b
      ensures b in TakenBy(done, bankOf, |done|) <==> b in uses
    {
      if b in uses {
        var id :| id in done && id in bankOf && bankOf[id] == b;
        var j :| 0 <= j < |done| && done[j] == id;
      }
      if b in TakenBy(done, bankOf, |done|) {
        var j :| 0 <= j < |done| && done[j] in bankOf && bankOf[done[j]] == b;
        assert HoldsIn(sp, infos, ios, done[j], bankOf, uses);
      }
    }
  }

  // An address at which the new region starts, given the status of the bank.
  ghost predicate StartOk(last: BankStatus, isStore: bool, size: int, bankSize: int, start: int) {
    && start >= 0 && (start == 0 || start + size <= bankSize)
    && (start == 0 || start == last.end)
    && (SameKind(last, isStore) && !LastBlocks(last, isStore, size, bankSize) ==> start >= last.end || start + size <= last.start)
  }

  // Why the dependence is enough in the bank.
  ghost predicate Chosen(last: BankStatus, older: BankStatus, isStore: bool, size: int, bankSize: int, dep: int) {
    if dep == 0 then !LastBlocks(last, isStore, size, bankSize) && !OlderBlocks(older, isStore)
    else if isStore then dep == EX_DEP_ST_LAST_TASK
    else if dep == LD_DEP_ST_LAST_SEC_TASK then !LastBlocks(last, isStore, size, bankSize)
    else if dep == LD_DEP_EX_LAST_TASK then last.used == 1
    else dep == LD_DEP_ST_LAST_TASK && last.used == 2
  }

  lemma ChosenIsGuarded(last: seq<BankStatus>, older: seq<BankStatus>, r2: Record, r1: Record,
                        b: int, isStore: bool, size: int, bankSize: int, start: int, dep: int, exDep: int)
    requires |last| == |older| && 0 <= b < |last| && Shows(last, r1.uses) && Shows(older, r2.uses)
    requires StartOk(last[b], isStore, size, bankSize, start)
    requires Chosen(last[b], older[b], isStore, size, bankSize, dep)
    requires isStore && dep != 0 ==> exDep == EX_DEP_ST_LAST_TASK
    ensures Guarded(r2, r1, Use(isStore, Region(start, start + size), dep), b, exDep)
  {}

  // A bank where neither of the last tasks is in the way.
  predicate IsFree(last: seq<BankStatus>, older: seq<BankStatus>, b: int, isStore: bool, size: int, bankSize: int)
    requires 0 <= b < |last| && |older| == |last|
  {
    !LastBlocks(last[b], isStore, size, bankSize) && !OlderBlocks(older[b], isStore)
  }

  function MinOf(s: seq<int>): (m: int)
    requires s != []
    ensures m in s && forall x | x in s :: m <= x
  {
    if |s| == 1 then s[0]
    else
      var m := MinOf(s[1..]);
      assert s == [s[0]] + s[1..];
      if s[0] < m then s[0] else m
  }

  ghost predicate IsList(ios: map<int, Io>, order: seq<int>) {
    && (forall id :: id in ios <==> id in order)
    && (forall j, k | 0 <= j < k < |order| :: order[j] != order[k])
  }

  // What the dependence of a load costs, for n loads.
  function CostOf(dep: int, n: nat): nat {
    if dep == LD_DEP_ST_LAST_SEC_TASK then 1
    else if dep == LD_DEP_EX_LAST_TASK then n
    else if dep == LD_DEP_ST_LAST_TASK then n * n * n
    else 0
  }

  lemma CostIsPositive(dep: int, n: nat)
    requires n > 0 && 1 <= dep <= 3
    ensures CostOf(dep, n) > 0
  {
    assert n * n >= n;
    assert n * n * n >= n * n by {
      assert n * n * n == (n - 1) * (n * n) + n * n;
    }
  }

  // The scratchpad: its banks and the configuration part on top of them; widths in bytes.
  datatype Spad = Spad(bankNum: nat, sizeofBank: nat, dataByte: nat, spadDataByte: nat, cfgSpadSize: nat,
                       iobToSpadBanks: map<int, seq<int>>)   // the banks connected to each I/O block
  {
    predicate Ok() { dataByte > 0 && spadDataByte > 0 }

    // The I/O block has banks.
    predicate Connected(iob: int) {
      && iob in iobToSpadBanks && iobToSpadBanks[iob] != []
      && forall j | 0 <= j < |iobToSpadBanks[iob]| :: 0 <= iobToSpadBanks[iob][j] < bankNum
    }
  }

  // The I/O has got bank b: it is one of its block's, the region is in the bank if it can be at
  // all, and both addresses point to the start of the region.
  ghost predicate Holds(sp: Spad, info: IoInfo, io: Io, b: int, u: Use)
    requires sp.Ok() && sp.Connected(io.iob)
  {
    var size := AlignUp(io.memSize, sp.spadDataByte);
    && b in sp.iobToSpadBanks[io.iob]
    && u.isStore == io.isStore && info.isStore == io.isStore && info.dep == u.dep
    && 0 <= u.region.start && u.region.end == u.region.start + size
    && u.region.start % sp.spadDataByte == 0 && u.region.end % sp.spadDataByte == 0
    && u.region.start <= sp.sizeofBank && (size <= sp.sizeofBank <==> u.region.end <= sp.sizeofBank)
    && info.addr == b * sp.sizeofBank + u.region.start
    && info.iobAddr == ((b - MinOf(sp.iobToSpadBanks[io.iob])) * sp.sizeofBank + u.region.start) / sp.dataByte
  }

  ghost predicate HoldsIn(sp: Spad, infos: map<int, IoInfo>, ios: map<int, Io>, id: int, bankOf: map<int, int>, uses: map<int, Use>)
    requires sp.Ok()
  {
    && id in infos && id in ios && sp.Connected(ios[id].iob) && id in bankOf && bankOf[id] in uses
    && Holds(sp, infos[id], ios[id], bankOf[id], uses[bankOf[id]])
  }

  // The I/Os of the list have banks of their own, and no other bank is in use.
  ghost predicate Allocated(sp: Spad, infos: map<int, IoInfo>, ios: map<int, Io>, done: seq<int>,
                            bankOf: map<int, int>, uses: map<int, Use>)
    requires sp.Ok()
  {
    && (forall id :: id in infos <==> id in done)
    && (forall id {:trigger HoldsIn(sp, infos, ios, id, bankOf, uses)} | id in done :: HoldsIn(sp, infos, ios, id, bankOf, uses))
    && (forall id, id' | id in done && id' in done && id != id' && id in bankOf && id' in bankOf :: bankOf[id] != bankOf[id'])
    && (forall b | b in uses :: exists id :: id in done && id in bankOf && bankOf[id] == b)
  }

  // The first I/Os of the list have got banks, and those are all that the block of the next has.
  ghost predicate Stuck(sp: Spad, infos: map<int, IoInfo>, ios: map<int, Io>, order: seq<int>)
    requires sp.Ok()
  {
    exists k, bankOf, uses :: StuckAt(sp, infos, ios, order, k, bankOf, uses)
  }

  ghost predicate StuckAt(sp: Spad, infos: map<int, IoInfo>, ios: map<int, Io>, order: seq<int>, k: int, bankOf: map<int, int>, uses: map<int, Use>)
    requires sp.Ok()
  {
    && 0 <= k < |order| && Allocated(sp, infos, ios, order[..k], bankOf, uses)
    && order[k] in ios && sp.Connected(ios[order[k]].iob) && forall b | b in sp.iobToSpadBanks[ios[order[k]].iob] :: b in uses
  }

  // Both addresses of a region that starts at start in bank b.
  function Placed(sp: Spad, io: Io, b: int, start: int, dep: int): IoInfo
    requires sp.Ok() && sp.Connected(io.iob)
  {
    IoInfo(b * sp.sizeofBank + start, ((b - MinOf(sp.iobToSpadBanks[io.iob])) * sp.sizeofBank + start) / sp.dataByte, dep, io.isStore)
  }

  lemma PlacedHolds(sp: Spad, io: Io, last: BankStatus, b: int, start: int, dep: int)
    requires sp.Ok() && sp.Connected(io.iob) && b in sp.iobToSpadBanks[io.iob]
    requires Tidy(last, sp.spadDataByte, sp.sizeofBank)
    requires StartOk(last, io.isStore, AlignUp(io.memSize, sp.spadDataByte), sp.sizeofBank, start)
    ensures Holds(sp, Placed(sp, io, b, start, dep), io, b, Use(io.isStore, Region(start, start + AlignUp(io.memSize, sp.spadDataByte)), dep))
  {
    MultipleSum(start, AlignUp(io.memSize, sp.spadDataByte), sp.spadDataByte);
  }

  // When words fit banks and the alignment, both addresses name the same byte: the one counted
  // from the start of the scratchpad, the other in words from the block's first bank.
  lemma SameByte(sp: Spad, info: IoInfo, io: Io, b: int, u: Use)
    requires sp.Ok() && sp.Connected(io.iob) && Holds(sp, info, io, b, u)
    requires sp.sizeofBank % sp.dataByte == 0 && sp.spadDataByte % sp.dataByte == 0
    ensures info.iobAddr * sp.dataByte + MinOf(sp.iobToSpadBanks[io.iob]) * sp.sizeofBank == info.addr
  {
    var min := MinOf(sp.iobToSpadBanks[io.iob]);
    WholeWords(b - min, sp.sizeofBank, u.region.start, sp.spadDataByte, sp.dataByte);
    Distribute(b, min, sp.sizeofBank);
  }

  lemma Distribute(b: int, c: int, n: int)
    ensures (b - c) * n + c * n == b * n
  {}

  lemma WholeWords(banks: int, bankSize: nat, start: int, width: nat, dataByte: nat)
    requires width > 0 && dataByte > 0 && bankSize % dataByte == 0 && width % dataByte == 0 && start % width == 0
    ensures (banks * bankSize + start) / dataByte * dataByte == banks * bankSize + start
  {
    MultipleOf(banks, bankSize, dataByte);
    MultipleOf(start / width, width, dataByte);
    assert start / width * width == start;
    MultipleSum(banks * bankSize, start, dataByte);
    var x := banks * bankSize + start;
    assert x / dataByte * dataByte + x % dataByte == x;
  }

  lemma WordsAdd(base: nat, len: nat, width: nat)
    requires width > 0 && base % width == 0 && len % width == 0
    ensures (base + len) % width == 0 && base / width * width == base
  {
    MultipleSum(base, len, width);
    Divided(base, width);
    assert base / width * width == width * (base / width);
  }

  // The data of two I/Os of a task never share a byte of the scratchpad.
  lemma TaskDataApart(sp: Spad, infos: map<int, IoInfo>, ios: map<int, Io>, done: seq<int>, bankOf: map<int, int>, uses: map<int, Use>,
                      id: int, id': int)
    requires sp.Ok() && Allocated(sp, infos, ios, done, bankOf, uses)
    requires id in done && id' in done && id != id' && id in ios && id' in ios && id in infos && id' in infos
    requires AlignUp(ios[id].memSize, sp.spadDataByte) <= sp.sizeofBank && AlignUp(ios[id'].memSize, sp.spadDataByte) <= sp.sizeofBank
    ensures Apart(Region(infos[id].addr, infos[id].addr + ios[id].memSize), Region(infos[id'].addr, infos[id'].addr + ios[id'].memSize))
  {
    assert HoldsIn(sp, infos, ios, id, bankOf, uses) && HoldsIn(sp, infos, ios, id', bankOf, uses);
    BanksApart(bankOf[id], bankOf[id'], sp.sizeofBank);
  }

  lemma BanksApart(b: int, b': int, size: nat)
    requires b != b'
    ensures b * size + size <= b' * size || b' * size + size <= b * size
  {
    var d := if b < b' then b' - b - 1 else b - b' - 1;
    assert d * size >= 0;
    assert b < b' ==> b' * size == b * size + size + d * size;
    assert b > b' ==> b * size == b' * size + size + d * size;
  }

  lemma ShowsOne(status: seq<BankStatus>, uses: map<int, Use>, b: int, s: BankStatus, u: Use)
    requires Shows(status, uses) && 0 <= b < |status|
    requires s.used == (if u.isStore then 2 else 1) && Region(s.start, s.end) == u.region
    ensures Shows(status[b := s], uses[b := u])
  {}

  lemma AllocateOne(sp: Spad, infos: map<int, IoInfo>, ios: map<int, Io>, done: seq<int>, bankOf: map<int, int>, uses: map<int, Use>,
                    id: int, info: IoInfo, b: int, u: Use)
    requires sp.Ok() && Allocated(sp, infos, ios, done, bankOf, uses)
    requires id !in done && id in ios && sp.Connected(ios[id].iob) && Holds(sp, info, ios[id], b, u) && b !in uses
    ensures Allocated(sp, infos[id := info], ios, done + [id], bankOf[id := b], uses[b := u])
  {
    var infos', bankOf', uses' := infos[id := info], bankOf[id := b], uses[b := u];
    forall x | x in done + [id]
      ensures HoldsIn(sp, infos', ios, x, bankOf', uses')
    {
      assert x != id ==> HoldsIn(sp, infos, ios, x, bankOf, uses);
    }
    forall x, y | x in done + [id] && y in done + [id] && x != y && x in bankOf' && y in bankOf'
      ensures bankOf'[x] != bankOf'[y]
    {
      assert x in done ==> HoldsIn(sp, infos, ios, x, bankOf, uses);
      assert y in done ==> HoldsIn(sp, infos, ios, y, bankOf, uses);
    }
    forall c | c in uses'
      ensures exists x :: x in done + [id] && x in bankOf' && bankOf'[x] == c
    {
      if c == b {
        assert id in done + [id];
      } else {
        var x :| x in done && x in bankOf && bankOf[x] == c;
        assert x in done + [id] && bankOf'[x] == c;
      }
    }
  }

  function Stores(ios: map<int, Io>): set<int> {
    set id | id in ios && ios[id].isStore
  }

  lemma LoadsCount(ios: map<int, Io>)
    ensures |Stores(ios)| <= |ios|
    ensures (exists id :: id in ios && !ios[id].isStore) ==> |Stores(ios)| < |ios|
  {
    Collections.Smaller(Stores(ios), ios.Keys);
    if id :| id in ios && !ios[id].isStore {
      Collections.Smaller(Stores(ios), ios.Keys - {id});
    }
  }

  lemma NothingAllocated(sp: Spad, ios: map<int, Io>, n: nat, banks: nat)
    requires sp.Ok()
    ensures Shows(seq(banks, i => FREE), map[])
    ensures Allocated(sp, map[], ios, [], map[], map[]) && CostOk(ios, map[], [], n, map[], 0) && Blocks(ios, []) == {}
  {}

  lemma NoLoads(ios: map<int, Io>)
    requires forall id | id in ios :: !IsLoad(ios, id)
    ensures |ios| == |Stores(ios)|
  {
    forall id
      ensures id in Stores(ios) <==> id in ios.Keys
    {
      assert id in ios ==> !IsLoad(ios, id);
    }
    Collections.SameSize(Stores(ios), ios.Keys);
  }

  function NumLoads(ios: map<int, Io>): nat {
    LoadsCount(ios);
    |ios| - |Stores(ios)|
  }

  function Blocks(ios: map<int, Io>, done: seq<int>): set<int> {
    set id | id in done && id in ios :: ios[id].iob
  }

  lemma BlocksMore(ios: map<int, Io>, done: seq<int>, id: int)
    requires id in ios
    ensures Blocks(ios, done + [id]) == Blocks(ios, done) + {ios[id].iob}
  {}

  predicate IsLoad(ios: map<int, Io>, id: int) { id in ios && !ios[id].isStore }

  predicate Charged(memDep: map<string, int>, name: string, least: int) { name in memDep && memDep[name] >= least }

  // What I/O id costs for itself.
  function CostAt(ios: map<int, Io>, infos: map<int, IoInfo>, id: int, n: nat): nat {
    if IsLoad(ios, id) && id in infos then CostOf(infos[id].dep, n) else 0
  }

  // The k-th I/O is a load that costs something, and more than each load of its array before it.
  ghost predicate IsRecord(ios: map<int, Io>, infos: map<int, IoInfo>, order: seq<int>, k: int, n: nat) {
    && 0 <= k < |order| && IsLoad(ios, order[k]) && CostAt(ios, infos, order[k], n) > 0
    && forall j | 0 <= j < k && IsLoad(ios, order[j]) && ios[order[j]].memRefName == ios[order[k]].memRefName ::
         CostAt(ios, infos, order[j], n) < CostAt(ios, infos, order[k], n)
  }

  // The loads of one array count when they cost more than those before them.
  ghost function LoadCosts(ios: map<int, Io>, infos: map<int, IoInfo>, order: seq<int>, n: nat): nat {
    if order == [] then 0
    else
      var k := |order| - 1;
      LoadCosts(ios, infos, order[..k], n) + if IsRecord(ios, infos, order, k, n) then CostAt(ios, infos, order[k], n) else 0
  }

  lemma {:induction false} LoadCostsAgree(ios: map<int, Io>, infos: map<int, IoInfo>, infos': map<int, IoInfo>, order: seq<int>, n: nat)
    requires forall id | id in order :: CostAt(ios, infos, id, n) == CostAt(ios, infos', id, n)
    ensures LoadCosts(ios, infos, order, n) == LoadCosts(ios, infos', order, n)
  {
    if order != [] {
      LoadCostsAgree(ios, infos, infos', order[..|order| - 1], n);
    }
  }

  // memDep holds the cost of the worst load of each array.
  ghost predicate WorstKnown(ios: map<int, Io>, infos: map<int, IoInfo>, done: seq<int>, n: nat, memDep: map<string, int>) {
    && (forall id | id in done && CostAt(ios, infos, id, n) > 0 :: Charged(memDep, ios[id].memRefName, CostAt(ios, infos, id, n)))
    && (forall m | m in memDep :: memDep[m] > 0 && Attained(ios, infos, done, n, m, memDep[m]))
  }

  ghost predicate Attained(ios: map<int, Io>, infos: map<int, IoInfo>, done: seq<int>, n: nat, m: string, cost: int) {
    exists id :: id in done && IsLoad(ios, id) && ios[id].memRefName == m && CostAt(ios, infos, id, n) == cost
  }

  // The charge for the next I/O.
  function ChargeFor(memDep: map<string, int>, name: string, cost: int): int {
    if cost > 0 && (name !in memDep || memDep[name] < cost) then cost else 0
  }

  function ChargedWith(memDep: map<string, int>, name: string, cost: int): map<string, int> {
    if ChargeFor(memDep, name, cost) > 0 then memDep[name := cost] else memDep
  }

  lemma RecordIsCharged(ios: map<int, Io>, infos: map<int, IoInfo>, done: seq<int>, n: nat, memDep: map<string, int>, id: int)
    requires WorstKnown(ios, infos, done, n, memDep) && IsLoad(ios, id) && id !in done
    ensures LoadCosts(ios, infos, done + [id], n)
      == LoadCosts(ios, infos, done, n) + ChargeFor(memDep, ios[id].memRefName, CostAt(ios, infos, id, n))
  {
    var order, cost, m := done + [id], CostAt(ios, infos, id, n), ios[id].memRefName;
    assert order[..|done|] == done;
    if cost > 0 && m in memDep && memDep[m] >= cost {
      var x :| x in done && IsLoad(ios, x) && ios[x].memRefName == m && CostAt(ios, infos, x, n) == memDep[m];
      var j :| 0 <= j < |done| && done[j] == x;
      assert order[j] == x && order[|done|] == id;
    } else if cost > 0 {
      forall j | 0 <= j < |done| && IsLoad(ios, order[j]) && ios[order[j]].memRefName == m
        ensures CostAt(ios, infos, order[j], n) < cost
      {
        assert order[j] in done;
      }
    }
  }

  lemma OtherIsFree(ios: map<int, Io>, infos: map<int, IoInfo>, done: seq<int>, n: nat, id: int)
    requires CostAt(ios, infos, id, n) == 0
    ensures LoadCosts(ios, infos, done + [id], n) == LoadCosts(ios, infos, done, n)
  {
    assert (done + [id])[..|done|] == done;
  }

  lemma WorstStaysKnown(ios: map<int, Io>, infos: map<int, IoInfo>, infos': map<int, IoInfo>, done: seq<int>, n: nat,
                        memDep: map<string, int>, id: int)
    requires WorstKnown(ios, infos, done, n, memDep) && id in ios && id !in done && id in infos' && infos' == infos[id := infos'[id]]
    ensures WorstKnown(ios, infos', done + [id], n, ChargedWith(memDep, ios[id].memRefName, CostAt(ios, infos', id, n)))
  {
    var cost, name := CostAt(ios, infos', id, n), ios[id].memRefName;
    var memDep' := ChargedWith(memDep, name, cost);
    assert id in done + [id];
    forall x | x in done
      ensures CostAt(ios, infos', x, n) == CostAt(ios, infos, x, n)
    {}
    forall m | m in memDep'
      ensures memDep'[m] > 0 && Attained(ios, infos', done + [id], n, m, memDep'[m])
    {
      if !(m == name && ChargeFor(memDep, name, cost) > 0) {
        var x :| x in done && IsLoad(ios, x) && ios[x].memRefName == m && CostAt(ios, infos, x, n) == memDep[m];
        assert x in done + [id];
      }
    }
  }

  lemma NextCost(ios: map<int, Io>, infos: map<int, IoInfo>, infos': map<int, IoInfo>, done: seq<int>, n: nat,
                 memDep: map<string, int>, id: int)
    requires WorstKnown(ios, infos, done, n, memDep) && id in ios && id !in done && id in infos' && infos' == infos[id := infos'[id]]
    ensures var cost := CostAt(ios, infos', id, n);
      && WorstKnown(ios, infos', done + [id], n, ChargedWith(memDep, ios[id].memRefName, cost))
      && LoadCosts(ios, infos', done + [id], n) == LoadCosts(ios, infos, done, n) + ChargeFor(memDep, ios[id].memRefName, cost)
  {
    WorstStaysKnown(ios, infos, infos', done, n, memDep, id);
    forall x | x in done
      ensures CostAt(ios, infos, x, n) == CostAt(ios, infos', x, n)
    {}
    LoadCostsAgree(ios, infos, infos', done, n);
    if IsLoad(ios, id) {
      SameWorst(ios, infos, infos', done, n, memDep);
      RecordIsCharged(ios, infos', done, n, memDep, id);
    } else {
      OtherIsFree(ios, infos', done, n, id);
    }
  }

  lemma SameWorst(ios: map<int, Io>, infos: map<int, IoInfo>, infos': map<int, IoInfo>, done: seq<int>, n: nat, memDep: map<string, int>)
    requires WorstKnown(ios, infos, done, n, memDep)
    requires forall x | x in done :: CostAt(ios, infos, x, n) == CostAt(ios, infos', x, n)
    ensures WorstKnown(ios, infos', done, n, memDep)
  {
    forall m | m in memDep
      ensures Attained(ios, infos', done, n, m, memDep[m])
    {
      var x :| x in done && IsLoad(ios, x) && ios[x].memRefName == m && CostAt(ios, infos, x, n) == memDep[m];
      assert CostAt(ios, infos', x, n) == memDep[m];
    }
  }

  // What has been charged for the loads of the list.
  ghost predicate CostOk(ios: map<int, Io>, infos: map<int, IoInfo>, done: seq<int>, n: nat, memDep: map<string, int>, cost: int) {
    WorstKnown(ios, infos, done, n, memDep) && cost == LoadCosts(ios, infos, done, n)
  }

  // The charges come to the worst load at least, and to nothing only without a dependence.
  lemma {:induction false} LoadCostsBound(ios: map<int, Io>, infos: map<int, IoInfo>, order: seq<int>, n: nat, id: int)
    requires id in order
    ensures CostAt(ios, infos, id, n) <= LoadCosts(ios, infos, order, n)
  {
    var k := |order| - 1;
    assert order == order[..k] + [order[k]];
    if id in order[..k] {
      LoadCostsBound(ios, infos, order[..k], n, id);
    } else if !IsRecord(ios, infos, order, k, n) && CostAt(ios, infos, id, n) > 0 {
      var j :| 0 <= j < k && IsLoad(ios, order[j]) && ios[order[j]].memRefName == ios[id].memRefName
        && CostAt(ios, infos, order[j], n) >= CostAt(ios, infos, id, n);
      LoadCostsBound(ios, infos, order[..k], n, order[j]);
    }
  }

  lemma {:induction false} LoadCostsSome(ios: map<int, Io>, infos: map<int, IoInfo>, order: seq<int>, n: nat)
    requires forall id | id in order :: CostAt(ios, infos, id, n) == 0
    ensures LoadCosts(ios, infos, order, n) == 0
  {
    if order != [] {
      LoadCostsSome(ios, infos, order[..|order| - 1], n);
    }
  }

  lemma ZeroCost(ios: map<int, Io>, infos: map<int, IoInfo>, order: seq<int>, n: nat)
    requires IsList(ios, order) && n == NumLoads(ios)
    requires forall id | IsLoad(ios, id) && id in infos :: 0 <= infos[id].dep <= 3
    ensures LoadCosts(ios, infos, order, n) == 0 <==> forall id | IsLoad(ios, id) && id in infos :: infos[id].dep == 0
  {
    forall id | IsLoad(ios, id) && id in infos
      ensures id in order && CostAt(ios, infos, id, n) <= LoadCosts(ios, infos, order, n)
      ensures CostAt(ios, infos, id, n) == 0 <==> infos[id].dep == 0
    {
      LoadCostsBound(ios, infos, order, n, id);
      LoadsCount(ios);
      if infos[id].dep != 0 {
        CostIsPositive(infos[id].dep, n);
      }
    }
    if forall id | IsLoad(ios, id) && id in infos :: infos[id].dep == 0 {
      LoadCostsSome(ios, infos, order, n);
    }
  }

  lemma AllTidy(sp: Spad, status: seq<BankStatus>, infos: map<int, IoInfo>, ios: map<int, Io>, done: seq<int>,
                bankOf: map<int, int>, uses: map<int, Use>)
    requires sp.Ok() && Shows(status, uses) && Allocated(sp, infos, ios, done, bankOf, uses)
    ensures forall b | 0 <= b < |status| :: Tidy(status[b], sp.spadDataByte, sp.sizeofBank)
  {
    forall b | 0 <= b < |status|
      ensures Tidy(status[b], sp.spadDataByte, sp.sizeofBank)
    {
      if b in uses {
        var id :| id in done && id in bankOf && bankOf[id] == b;
        assert HoldsIn(sp, infos, ios, id, bankOf, uses);
      }
    }
  }

  // The place of a configuration, up to what the scheduler keeps of it.
  predicate Covers(kept: Region, cfg: Region, size: int) {
    kept.start == cfg.start && 0 <= kept.start <= kept.end <= size && (cfg.end <= kept.end || kept.end == size)
  }

  // What is kept starts and ends with a word, if the configuration part consists of words.
  predicate InWords(kept: Region, size: int, width: int)
    requires width > 0
  {
    size % width == 0 ==> kept.start % width == 0 && kept.end % width == 0
  }

  class Scheduler {
    const spad: Spad

    var cur: seq<BankStatus>
    var last: seq<BankStatus>
    var older: seq<BankStatus>
    var oldCfg: Region
    var infos: map<int, IoInfo>
    var exDep: int
    var iobEns: set<int>
    var depCost: int
    var ldCfgDep: int
    var taskId: int
    ghost var history: seq<Record>

    ghost predicate Sized()
      reads this
    {
      && |cur| == spad.bankNum && |last| == spad.bankNum && |older| == spad.bankNum && spad.Ok()
      && (forall b | 0 <= b < spad.bankNum :: Tidy(last[b], spad.spadDataByte, spad.sizeofBank))
    }

    // Finds the bank for an I/O among the available ones, and the least dependence that makes
    // it usable.
    method ChooseBank(availBanks: seq<int>, isStore: bool, memSize: nat) returns (selBank: int, selStart: int, dep: int)
      requires Sized() && availBanks != [] && forall j | 0 <= j < |availBanks| :: 0 <= availBanks[j] < spad.bankNum
      ensures selBank in availBanks
      ensures StartOk(last[selBank], isStore, memSize, spad.sizeofBank, selStart)
      ensures Chosen(last[selBank], older[selBank], isStore, memSize, spad.sizeofBank, dep)
      ensures Weakest(last, older, availBanks, {}, isStore, memSize, spad.sizeofBank, dep)
    {
      forall b | b in availBanks
        ensures IsFree(last, older, b, isStore, memSize, spad.sizeofBank) <==> Untouched(last[b], older[b], isStore, memSize, spad.sizeofBank)
        ensures LastBlocks(last[b], isStore, memSize, spad.sizeofBank) <==> !Untouched(last[b], FREE, isStore, memSize, spad.sizeofBank)
      {
        FreeIsUntouched(last[b], older[b], spad.spadDataByte, isStore, memSize, spad.sizeofBank);
        FreeIsUntouched(last[b], FREE, spad.spadDataByte, isStore, memSize, spad.sizeofBank);
      }
      assert forall b :: Left(availBanks, {}, b) <==> b in availBanks;
      var bankStatus: seq<(int, int)> := [];
      var i := 0;
      while i < |availBanks|
        invariant 0 <= i <= |availBanks| && |bankStatus| == i
        invariant forall j | 0 <= j < i :: Assessed(availBanks[j], isStore, memSize, bankStatus[j].0, bankStatus[j].1)
        invariant forall j | 0 <= j < i :: bankStatus[j].0 != 0
      {
        var status, start := Assess(availBanks[i], isStore, memSize);
        if status == 0 {
          return availBanks[i], start, 0;
        }
        bankStatus := bankStatus + [(status, start)];
        i := i + 1;
      }
      i := 0;
      while i < |availBanks|
        invariant 0 <= i <= |availBanks|
        invariant forall j | 0 <= j < i :: bankStatus[j].0 != 1
      {
        if bankStatus[i].0 == 1 {
          assert Assessed(availBanks[i], isStore, memSize, bankStatus[i].0, bankStatus[i].1);
          return availBanks[i], bankStatus[i].1, LD_DEP_ST_LAST_SEC_TASK;
        }
        i := i + 1;
      }
      assert Assessed(availBanks[0], isStore, memSize, bankStatus[0].0, bankStatus[0].1);
      if isStore {
        return availBanks[0], bankStatus[0].1, EX_DEP_ST_LAST_TASK;
      }
      i := 0;
      while i < |availBanks|
        invariant 0 <= i <= |availBanks|
        invariant forall j | 0 <= j < i :: last[availBanks[j]].used != 1
      {
        if last[availBanks[i]].used == 1 {
          assert Assessed(availBanks[i], isStore, memSize, bankStatus[i].0, bankStatus[i].1);
          return availBanks[i], bankStatus[i].1, LD_DEP_EX_LAST_TASK;
        }
        i := i + 1;
      }
      return availBanks[0], bankStatus[0].1, LD_DEP_ST_LAST_TASK;
    }

    // What the status of a bank means. 0: nothing in the way; 1: only the older task;
    // 2: only the last task; 3: both.
    ghost predicate Assessed(b: int, isStore: bool, memSize: nat, status: int, start: int)
      requires Sized() && 0 <= b < spad.bankNum
      reads this
    {
      && status == (if LastBlocks(last[b], isStore, memSize, spad.sizeofBank) then 2 else 0) + (if OlderBlocks(older[b], isStore) then 1 else 0)
      && StartOk(last[b], isStore, memSize, spad.sizeofBank, start)
    }

    method Assess(bank: int, isStore: bool, memSize: nat) returns (status: int, selStart: int)
      requires Sized() && 0 <= bank < spad.bankNum
      ensures Assessed(bank, isStore, memSize, status, selStart)
    {
      var oldUsed, olderUsed := last[bank].used, older[bank].used;
      var oldStatus, oldSelStart := 0, 0;
      if oldUsed == 0 {
        oldStatus := 0;
      } else if (oldUsed == 1 && !isStore) || (oldUsed == 2 && isStore) {
        if memSize <= spad.sizeofBank - last[bank].end {
          oldStatus, oldSelStart := 1, last[bank].end;
        } else if memSize <= last[bank].start {
          oldStatus, oldSelStart := 1, 0;
        } else {
          oldStatus := 2;
        }
      } else if oldUsed == 1 && isStore {
        oldStatus := 0;
      } else {
        oldStatus := 2;
      }
      var olderStatus := if olderUsed == 2 && !isStore then 2 else 0;
      if oldStatus < 2 && olderStatus == 0 {
        return 0, oldSelStart;
      } else if oldStatus < 2 && olderStatus == 2 {
        return 1, oldSelStart;
      } else if oldStatus == 2 && olderStatus == 0 {
        return 2, 0;
      } else {
        return 3, 0;
      }
    }

    // ----- one task

    ghost function LastTask(): Record
      reads this`history
    {
      TaskAt(history, |history| - 1)
    }

    ghost function OlderTask(): Record
      reads this`history
    {
      TaskAt(history, |history| - 2)
    }

    ghost predicate AllGuarded(uses: map<int, Use>)
      reads this`exDep, this`history
    {
      forall b | b in uses :: Guarded(OlderTask(), LastTask(), uses[b], b, exDep)
    }

    // The status of the banks is that of the last two tasks.
    ghost predicate Remembers()
      reads this`last, this`older, this`history
    {
      Shows(last, LastTask().uses) && Shows(older, OlderTask().uses)
    }

    method AvailBanks(iob: int) returns (availBanks: seq<int>)
      requires |cur| == spad.bankNum && spad.Connected(iob)
      ensures forall b :: b in availBanks <==> b in spad.iobToSpadBanks[iob] && cur[b].used == 0
      ensures forall j | 0 <= j < |availBanks| :: 0 <= availBanks[j] < spad.bankNum
    {
      availBanks := [];
      var banks := spad.iobToSpadBanks[iob];
      for i := 0 to |banks|
        invariant forall b :: b in availBanks <==> b in banks[..i] && cur[b].used == 0
        invariant forall j | 0 <= j < |availBanks| :: 0 <= availBanks[j] < spad.bankNum
      {
        assert banks[..i + 1] == banks[..i] + [banks[i]];
        if cur[banks[i]].used == 0 {
          availBanks := availBanks + [banks[i]];
        }
      }
      assert banks[..|banks|] == banks;
    }

    // Gives the I/O a bank, an address and a dependence. Fails when all banks of its block are
    // taken by other I/Os of the task.
    method AllocateIo(id: int, io: Io, ghost ios: map<int, Io>, ghost done: seq<int>,
                      ghost bankOf: map<int, int>, ghost uses: map<int, Use>)
      returns (ok: bool, ghost bankOf': map<int, int>, ghost uses': map<int, Use>)
      requires Sized() && Remembers() && spad.Connected(io.iob) && Shows(cur, uses)
      requires id in ios && ios[id] == io && id !in done
      requires Allocated(spad, infos, ios, done, bankOf, uses) && AllGuarded(uses)
      requires DepsWeakest(spad, last, older, infos, ios, done, bankOf)
      modifies this`infos, this`cur, this`exDep
      ensures Sized()
      ensures !ok <==> forall b | b in spad.iobToSpadBanks[io.iob] :: b in uses
      ensures ok ==> Allocated(spad, infos, ios, done + [id], bankOf', uses') && AllGuarded(uses') && Shows(cur, uses')
      ensures ok ==> id in infos && infos == old(infos)[id := infos[id]] && (!io.isStore ==> 0 <= infos[id].dep <= 3)
      ensures ok ==> DepsWeakest(spad, last, older, infos, ios, done + [id], bankOf')
      ensures ok ==> old(ExecutionWaits(ios, done)) ==> ExecutionWaits(ios, done + [id])
      ensures !ok ==> infos == old(infos) && cur == old(cur) && exDep == old(exDep) && uses' == uses && bankOf' == bankOf
    {
      var selBank, selStart, dep;
      ok, selBank, selStart, dep := SelectBank(io, ios, done, bankOf, uses);
      bankOf', uses' := bankOf, uses;
      if ok {
        bankOf', uses' := TakeBank(id, io, selBank, selStart, dep, ios, done, bankOf, uses);
        assert DepsWeakest(spad, last, older, infos, ios, done + [id], bankOf') by {
          DepsMore(spad, last, older, old(infos), infos, ios, done, bankOf, id, selBank);
        }
        assert forall x :: x in done + [id] <==> x in done || x == id;
      }
    }

    // Selects a bank, an address in it and a dependence, unless no bank is available.
    method SelectBank(io: Io, ghost ios: map<int, Io>, ghost done: seq<int>, ghost bankOf: map<int, int>, ghost uses: map<int, Use>)
      returns (ok: bool, selBank: int, selStart: int, dep: int)
      requires Sized() && spad.Connected(io.iob) && Shows(cur, uses) && Allocated(spad, infos, ios, done, bankOf, uses)
      ensures !ok <==> forall b | b in spad.iobToSpadBanks[io.iob] :: b in uses
      ensures ok ==> 0 <= selBank < spad.bankNum && selBank in spad.iobToSpadBanks[io.iob] && cur[selBank].used == 0
      ensures ok ==> StartOk(last[selBank], io.isStore, AlignUp(io.memSize, spad.spadDataByte), spad.sizeofBank, selStart)
      ensures ok ==> Chosen(last[selBank], older[selBank], io.isStore, AlignUp(io.memSize, spad.spadDataByte), spad.sizeofBank, dep)
      ensures ok ==> Weakest(last, older, spad.iobToSpadBanks[io.iob], TakenBy(done, bankOf, |done|), io.isStore,
                             AlignUp(io.memSize, spad.spadDataByte), spad.sizeofBank, dep)
    {
      var memSize := AlignUp(io.memSize, spad.spadDataByte);
      var availBanks := AvailBanks(io.iob);
      ok, selBank, selStart, dep := false, 0, 0, 0;
      if availBanks != [] {
        assert availBanks[0] in availBanks;
        ok := true;
        selBank, selStart, dep := ChooseBank(availBanks, io.isStore, memSize);
        LeftAreAvail(io, ios, done, bankOf, uses, availBanks, memSize, dep);
      }
    }

    // What is left for an I/O are the available banks.
    lemma LeftAreAvail(io: Io, ios: map<int, Io>, done: seq<int>, bankOf: map<int, int>, uses: map<int, Use>,
                       availBanks: seq<int>, size: nat, dep: int)
      requires Sized() && spad.Connected(io.iob) && Shows(cur, uses) && Allocated(spad, infos, ios, done, bankOf, uses)
      requires forall b :: b in availBanks <==> b in spad.iobToSpadBanks[io.iob] && cur[b].used == 0
      requires forall j | 0 <= j < |availBanks| :: 0 <= availBanks[j] < spad.bankNum
      requires Weakest(last, older, availBanks, {}, io.isStore, size, spad.sizeofBank, dep)
      ensures Weakest(last, older, spad.iobToSpadBanks[io.iob], TakenBy(done, bankOf, |done|), io.isStore, size, spad.sizeofBank, dep)
    {
      UsesAreTaken(spad, infos, ios, done, bankOf, uses);
      forall b
        ensures Left(spad.iobToSpadBanks[io.iob], TakenBy(done, bankOf, |done|), b) <==> Left(availBanks, {}, b)
      {}
    }

    method TakeBank(id: int, io: Io, selBank: int, selStart: int, dep: int, ghost ios: map<int, Io>, ghost done: seq<int>,
                    ghost bankOf: map<int, int>, ghost uses: map<int, Use>)
      returns (ghost bankOf': map<int, int>, ghost uses': map<int, Use>)
      requires Sized() && Remembers() && spad.Connected(io.iob) && Shows(cur, uses)
      requires id in ios && ios[id] == io && id !in done
      requires Allocated(spad, infos, ios, done, bankOf, uses) && AllGuarded(uses)
      requires 0 <= selBank < spad.bankNum && selBank in spad.iobToSpadBanks[io.iob] && cur[selBank].used == 0
      requires StartOk(last[selBank], io.isStore, AlignUp(io.memSize, spad.spadDataByte), spad.sizeofBank, selStart)
      requires Chosen(last[selBank], older[selBank], io.isStore, AlignUp(io.memSize, spad.spadDataByte), spad.sizeofBank, dep)
      modifies this`infos, this`cur, this`exDep
      ensures Sized()
      ensures Allocated(spad, infos, ios, done + [id], bankOf', uses') && AllGuarded(uses') && Shows(cur, uses')
      ensures infos == old(infos)[id := Placed(spad, io, selBank, selStart, dep)] && bankOf' == bankOf[id := selBank]
      ensures exDep == if io.isStore && dep != 0 then EX_DEP_ST_LAST_TASK else old(exDep)
    {
      var memSize := AlignUp(io.memSize, spad.spadDataByte);
      if io.isStore && dep != 0 {
        exDep := EX_DEP_ST_LAST_TASK;
      }
      ChosenIsGuarded(last, older, OlderTask(), LastTask(), selBank, io.isStore, memSize, spad.sizeofBank, selStart, dep, exDep);
      ghost var use := Use(io.isStore, Region(selStart, selStart + memSize), dep);
      var info := Placed(spad, io, selBank, selStart, dep);
      PlacedHolds(spad, io, last[selBank], selBank, selStart, dep);
      AllocateOne(spad, infos, ios, done, bankOf, uses, id, info, selBank, use);
      bankOf', uses' := bankOf[id := selBank], uses[selBank := use];
      infos := infos[id := info];
      var status := BankStatus(io.iob, if io.isStore then 2 else 1, selStart, selStart + memSize);
      ShowsOne(cur, uses, selBank, status, use);
      cur := cur[selBank := status];
    }

    // An array is charged when its load costs more than those before.
    method Charge(memDep: map<string, int>, name: string, cost: int) returns (memDep': map<string, int>)
      requires cost > 0
      modifies this`depCost
      ensures memDep' == ChargedWith(memDep, name, cost)
      ensures depCost == old(depCost) + ChargeFor(memDep, name, cost)
    {
      memDep' := memDep;
      if name !in memDep || memDep[name] < cost {
        memDep' := memDep'[name := cost];
        depCost := depCost + cost;
      }
    }

    method ChargeIo(id: int, io: Io, memDep: map<string, int>, n: nat,
                    ghost ios: map<int, Io>, ghost done: seq<int>, ghost infos0: map<int, IoInfo>)
      returns (memDep': map<string, int>)
      requires id in ios && ios[id] == io && id in infos && infos == infos0[id := infos[id]] && id !in done
      requires !io.isStore ==> 0 <= infos[id].dep <= 3 && n > 0
      requires CostOk(ios, infos0, done, n, memDep, depCost)
      modifies this`depCost
      ensures CostOk(ios, infos, done + [id], n, memDep', depCost)
    {
      memDep' := memDep;
      NextCost(ios, infos0, infos, done, n, memDep, id);
      if !io.isStore && infos[id].dep != 0 {
        CostIsPositive(infos[id].dep, n);
        memDep' := Charge(memDep, io.memRefName, CostOf(infos[id].dep, n));
      }
    }

    // An execution waits for the last task's stores when one of its own stores needs it.
    ghost predicate ExecutionWaits(ios: map<int, Io>, done: seq<int>)
      reads this`exDep, this`infos
    {
      && (exDep == 0 || exDep == EX_DEP_ST_LAST_TASK)
      && (exDep == 0 <==> forall id | id in done && id in ios && ios[id].isStore && id in infos :: infos[id].dep == 0)
    }

    ghost predicate AllConnected(ios: map<int, Io>) {
      forall id | id in ios :: spad.Connected(ios[id].iob)
    }

    // The cost is what the loads are charged, and the square of their number if the execution
    // has a dependence. It is zero just when no command has a dependence, but for an execution
    // without loads, whose dependence costs nothing.
    ghost predicate CostExact(ios: map<int, Io>, order: seq<int>)
      reads this`infos, this`exDep, this`depCost
    {
      var n := NumLoads(ios);
      && depCost == LoadCosts(ios, infos, order, n) + (if exDep > 0 then n * n else 0)
      && (depCost == 0 <==>
            && (forall id | IsLoad(ios, id) && id in infos :: infos[id].dep == 0)
            && (exDep == 0 || forall id | id in ios :: !IsLoad(ios, id)))
    }

    method ChargeExecution(ghost ios: map<int, Io>, ghost order: seq<int>, n: nat, ghost memDep: map<string, int>)
      requires IsList(ios, order) && n == NumLoads(ios) && 0 <= exDep
      requires forall id | IsLoad(ios, id) && id in infos :: 0 <= infos[id].dep <= 3
      requires CostOk(ios, infos, order, n, memDep, depCost)
      modifies this`depCost
      ensures CostExact(ios, order)
    {
      if forall id | id in ios :: !IsLoad(ios, id) {
        NoLoads(ios);
      } else {
        LoadsCount(ios);
      }
      ZeroCost(ios, infos, order, n);
      if exDep > 0 {
        depCost := depCost + n * n;
        assert n > 0 ==> n * n > 0;
      }
    }

    // The I/Os of the list have been scheduled.
    ghost predicate Going(ios: map<int, Io>, done: seq<int>, n: nat, memDep: map<string, int>, bankOf: map<int, int>, uses: map<int, Use>)
      reads this
    {
      forall k {:trigger Collections.Unfold(k)} | Collections.Unfold(k) && k == Collections.TheProgress ::
        && Sized() && Remembers() && Shows(cur, uses) && AllGuarded(uses)
        && Allocated(spad, infos, ios, done, bankOf, uses)
        && ExecutionWaits(ios, done) && CostOk(ios, infos, done, n, memDep, depCost)
        && (forall id | IsLoad(ios, id) && id in infos :: 0 <= infos[id].dep <= 3)
        && iobEns == Blocks(ios, done) && DepsWeakest(spad, last, older, infos, ios, done, bankOf)
    }

    // Allocates the I/Os in the order of the list. Fails when all banks of a block are taken.
    method IoSchedule(ios: map<int, Io>, order: seq<int>) returns (ok: bool, ghost bankOf: map<int, int>, ghost uses: map<int, Use>)
      requires Sized() && Remembers() && AllConnected(ios) && IsList(ios, order)
      modifies this`cur, this`infos, this`exDep, this`iobEns, this`depCost
      ensures Sized() && Shows(cur, uses) && AllGuarded(uses)
      ensures !ok ==> Stuck(spad, infos, ios, order)
      ensures ok ==> Allocated(spad, infos, ios, order, bankOf, uses)
      ensures ok ==> ExecutionWaits(ios, order) && CostExact(ios, order)
      ensures ok ==> iobEns == Blocks(ios, order) && DepsWeakest(spad, last, older, infos, ios, order, bankOf)
    {
      StartTask(ios);
      bankOf, uses := map[], map[];
      var inNodeNum := NumLoads(ios);
      var memDep: map<string, int> := map[];
      for k := 0 to |order|
        invariant Going(ios, order[..k], inNodeNum, memDep, bankOf, uses)
      {
        assert order[k] in order && order[k] !in order[..k];
        assert order[..k + 1] == order[..k] + [order[k]];
        ok, memDep, bankOf, uses := ScheduleIo(order[k], ios, inNodeNum, memDep, order[..k], bankOf, uses);
        if !ok {
          assert StuckAt(spad, infos, ios, order, k, bankOf, uses);
          return;
        }
      }
      assert order[..|order|] == order;
      FinishTask(ios, order, inNodeNum, memDep, bankOf, uses);
      ok := true;
    }

    method StartTask(ios: map<int, Io>)
      requires Sized() && Remembers()
      modifies this`cur, this`infos, this`exDep, this`iobEns, this`depCost
      ensures Going(ios, [], NumLoads(ios), map[], map[], map[])
    {
      infos, exDep, iobEns, depCost := map[], 0, {}, 0;
      cur := seq(spad.bankNum, i => FREE);
      NothingAllocated(spad, ios, NumLoads(ios), spad.bankNum);
    }

    method FinishTask(ghost ios: map<int, Io>, ghost order: seq<int>, n: nat, ghost memDep: map<string, int>,
                      ghost bankOf: map<int, int>, ghost uses: map<int, Use>)
      requires Going(ios, order, n, memDep, bankOf, uses) && IsList(ios, order) && n == NumLoads(ios)
      modifies this`depCost
      ensures Sized() && Shows(cur, uses) && AllGuarded(uses) && Allocated(spad, infos, ios, order, bankOf, uses)
      ensures ExecutionWaits(ios, order) && CostExact(ios, order) && iobEns == Blocks(ios, order)
      ensures DepsWeakest(spad, last, older, infos, ios, order, bankOf)
    {
      assert Collections.Unfold(Collections.TheProgress);
      ChargeExecution(ios, order, n, memDep);
    }

    method ScheduleIo(id: int, ios: map<int, Io>, n: nat, memDep: map<string, int>, ghost done: seq<int>,
                      ghost bankOf: map<int, int>, ghost uses: map<int, Use>)
      returns (ok: bool, memDep': map<string, int>, ghost bankOf': map<int, int>, ghost uses': map<int, Use>)
      requires Going(ios, done, n, memDep, bankOf, uses)
      requires AllConnected(ios) && id in ios && id !in done && n == NumLoads(ios)
      modifies this`cur, this`infos, this`exDep, this`iobEns, this`depCost
      ensures ok ==> Going(ios, done + [id], n, memDep', bankOf', uses')
      ensures !ok ==> Sized() && Shows(cur, uses') && AllGuarded(uses') && Allocated(spad, infos, ios, done, bankOf', uses')
      ensures !ok ==> forall b | b in spad.iobToSpadBanks[ios[id].iob] :: b in uses'
    {
      assert Collections.Unfold(Collections.TheProgress);
      ghost var infos0 := infos;
      LoadsCount(ios);
      memDep' := memDep;
      ok, bankOf', uses' := AllocateIo(id, ios[id], ios, done, bankOf, uses);
      if ok {
        memDep' := MarkIo(id, ios, n, memDep, infos0, done, bankOf', uses');
      }
    }

    // What an allocated I/O costs, and that its block is in use.
    method MarkIo(id: int, ios: map<int, Io>, n: nat, memDep: map<string, int>, ghost infos0: map<int, IoInfo>, ghost done: seq<int>,
                  ghost bankOf: map<int, int>, ghost uses: map<int, Use>)
      returns (memDep': map<string, int>)
      requires id in ios && id !in done && (IsLoad(ios, id) ==> n > 0) && iobEns == Blocks(ios, done)
      requires id in infos && infos == infos0[id := infos[id]] && (IsLoad(ios, id) ==> 0 <= infos[id].dep <= 3)
      requires forall x | IsLoad(ios, x) && x in infos0 :: 0 <= infos0[x].dep <= 3
      requires Sized() && Remembers() && Shows(cur, uses) && AllGuarded(uses)
      requires Allocated(spad, infos, ios, done + [id], bankOf, uses) && DepsWeakest(spad, last, older, infos, ios, done + [id], bankOf)
      requires ExecutionWaits(ios, done + [id]) && CostOk(ios, infos0, done, n, memDep, depCost)
      modifies this`iobEns, this`depCost
      ensures Going(ios, done + [id], n, memDep', bankOf, uses)
    {
      BlocksMore(ios, done, id);
      memDep' := ChargeIo(id, ios[id], memDep, n, ios, done, infos0);
      iobEns := iobEns + {ios[id].iob};
    }

    // Finds the place of the configuration in its part of the scratchpad, beside that of the
    // last task; where it cannot be, the load has to wait for the last task.
    method PlaceConfig(cfgLen: nat, ghost lastCfg: Region) returns (cfgBaseAddr: int)
      requires spad.Ok() && Covers(oldCfg, lastCfg, spad.cfgSpadSize) && InWords(oldCfg, spad.cfgSpadSize, spad.spadDataByte)
      modifies this`oldCfg, this`ldCfgDep
      ensures InWords(oldCfg, spad.cfgSpadSize, spad.spadDataByte)
      ensures spad.cfgSpadSize % spad.spadDataByte == 0 ==> cfgBaseAddr / spad.spadDataByte * spad.spadDataByte == cfgBaseAddr
      ensures oldCfg.end < cfgBaseAddr + cfgLen + spad.spadDataByte
      ensures ldCfgDep == 0 || ldCfgDep == LD_DEP_EX_LAST_TASK
      ensures Covers(oldCfg, Region(cfgBaseAddr, cfgBaseAddr + cfgLen), spad.cfgSpadSize)
      ensures Apart(Region(cfgBaseAddr, cfgBaseAddr + cfgLen), lastCfg) || ldCfgDep == LD_DEP_EX_LAST_TASK
      ensures ldCfgDep != 0 ==> !(cfgLen <= spad.cfgSpadSize - old(oldCfg).end) && !(cfgLen <= old(oldCfg).start)
      ensures cfgBaseAddr + cfgLen <= spad.cfgSpadSize <==> cfgLen <= spad.cfgSpadSize
    {
      ldCfgDep := 0;
      if cfgLen <= spad.cfgSpadSize - oldCfg.end {
        cfgBaseAddr := oldCfg.end;
      } else if cfgLen <= oldCfg.start {
        cfgBaseAddr := 0;
      } else {
        cfgBaseAddr := 0;
        ldCfgDep := LD_DEP_EX_LAST_TASK;
      }
      var end := cfgBaseAddr + AlignUp(cfgLen, spad.spadDataByte);
      if spad.cfgSpadSize % spad.spadDataByte == 0 {
        WordsAdd(cfgBaseAddr, AlignUp(cfgLen, spad.spadDataByte), spad.spadDataByte);
      }
      oldCfg := Region(cfgBaseAddr, if end < spad.cfgSpadSize then end else spad.cfgSpadSize);
    }

    // ----- whole runs

    ghost predicate Valid()
      reads this
    {
      && Sized() && Remembers() && Scheduled(history)
      && Covers(oldCfg, LastTask().cfg, spad.cfgSpadSize) && InWords(oldCfg, spad.cfgSpadSize, spad.spadDataByte)
    }

    constructor (spad: Spad)
      requires spad.Ok()
      ensures Valid() && this.spad == spad && history == []
    {
      this.spad := spad;
      cur := seq(spad.bankNum, i => FREE);
      last := seq(spad.bankNum, i => FREE);
      older := seq(spad.bankNum, i => FREE);
      oldCfg := Region(0, 0);
      infos, exDep, iobEns, depCost, ldCfgDep, taskId := map[], 0, {}, 0, 0, 0;
      history := [];
    }

    // Schedules one more task of the run. Every task of the run is guarded against the two
    // before it, so that all that HazardFree says holds of the history.
    method Execute(ios: map<int, Io>, order: seq<int>, cfgLen: nat) returns (ok: bool, ghost bankOf: map<int, int>)
      requires Valid() && AllConnected(ios) && IsList(ios, order)
      modifies this
      ensures Valid()
      ensures !ok ==> history == old(history) && Stuck(spad, infos, ios, order)
      ensures ok ==> |history| == |old(history)| + 1 && history[..|old(history)|] == old(history)
      ensures ok ==> Allocated(spad, infos, ios, order, bankOf, LastTask().uses)
      ensures ok ==> |old(last)| == |old(older)| == spad.bankNum && DepsWeakest(spad, old(last), old(older), infos, ios, order, bankOf)
      ensures ok ==> LastTask().exDep == exDep && LastTask().cfgDep == ldCfgDep && CostExact(ios, order)
      ensures ok ==> LastTask().cfg.end == LastTask().cfg.start + cfgLen && CfgAddressed(LastTask().cfg)
      ensures ok ==> taskId == old(taskId) + 1 && older == old(last) && last == cur
    {
      ghost var uses;
      ok, bankOf, uses := IoSchedule(ios, order);
      if !ok {
        return;
      }
      AllTidy(spad, cur, infos, ios, order, bankOf, uses);
      Shift(uses, cfgLen);
      taskId := taskId + 1;
    }

    // The controller finds the configuration by the word where it starts.
    ghost predicate CfgAddressed(cfg: Region)
      requires spad.Ok()
    {
      spad.cfgSpadSize % spad.spadDataByte == 0 ==> cfg.start / spad.spadDataByte * spad.spadDataByte == cfg.start
    }

    // The banks now show this task and the last.
    method Shift(ghost uses: map<int, Use>, cfgLen: nat)
      requires Valid() && Shows(cur, uses) && AllGuarded(uses) && forall b | 0 <= b < spad.bankNum :: Tidy(cur[b], spad.spadDataByte, spad.sizeofBank)
      modifies this`older, this`last, this`oldCfg, this`ldCfgDep, this`history
      ensures Valid() && |history| == |old(history)| + 1 && history[..|old(history)|] == old(history)
      ensures LastTask().uses == uses && LastTask().exDep == exDep && LastTask().cfgDep == ldCfgDep
      ensures LastTask().cfg.end == LastTask().cfg.start + cfgLen && CfgAddressed(LastTask().cfg)
      ensures older == old(last) && last == cur
    {
      ghost var lastCfg := LastTask().cfg;
      older := last;
      last := cur;
      var cfgBaseAddr := PlaceConfig(cfgLen, lastCfg);
      ghost var r := Record(uses, exDep, Region(cfgBaseAddr, cfgBaseAddr + cfgLen), ldCfgDep);
      assert Scheduled(history + [r]) by {
        ScheduledMore(history, r);
      }
      history := history + [r];
    }
  }

  // One more task, guarded against the last two.
  lemma ScheduledMore(h: seq<Record>, r: Record)
    requires Scheduled(h) && TaskGuarded(TaskAt(h, |h| - 2), TaskAt(h, |h| - 1), r)
    ensures Scheduled(h + [r])
  {
    forall t | 0 <= t < |h + [r]|
      ensures GuardedAt(h + [r], t)
    {
      assert t < |h| ==> GuardedAt(h, t);
    }
  }

  // ----- two findings

  // One bank of eight bytes.
  const SMALL := Spad(1, 8, 4, 4, 0, map[0 := [0]])

  // A task with one I/O cannot fail.
  lemma OneIoIsNotStuck(sp: Spad, infos: map<int, IoInfo>, ios: map<int, Io>, id: int)
    requires sp.Ok() && id in ios && sp.Connected(ios[id].iob)
    ensures !Stuck(sp, infos, ios, [id])
  {
    var banks := sp.iobToSpadBanks[ios[id].iob];
    forall k, bankOf, uses
      ensures !StuckAt(sp, infos, ios, [id], k, bankOf, uses)
    {
      assert [id][..0] == [];
      assert Allocated(sp, infos, ios, [], bankOf, uses) ==> banks[0] !in uses;
      assert banks[0] in banks;
    }
  }

  // Runs a task with the one I/O in the one bank.
  method ExecuteOne(s: Scheduler, io: Io) returns (ghost use: Use)
    requires s.Valid() && s.spad == SMALL && io.iob == 0
    modifies s
    ensures s.Valid() && |s.history| == |old(s.history)| + 1 && s.history[..|old(s.history)|] == old(s.history)
    ensures 0 in s.LastTask().uses && s.LastTask().uses[0] == use && 0 in s.infos
    ensures Holds(SMALL, s.infos[0], io, 0, use)
    ensures s.LastTask().exDep == s.exDep && s.CostExact(map[0 := io], [0])
  {
    var ios := map[0 := io];
    assert SMALL.Connected(0) by {
      assert SMALL.iobToSpadBanks[0] == [0];
    }
    var ok, bankOf := s.Execute(ios, [0], 0);
    OneIoIsNotStuck(SMALL, s.infos, ios, 0);
    assert HoldsIn(SMALL, s.infos, ios, 0, bankOf, s.LastTask().uses) by {
      assert 0 in [0];
    }
    use := s.LastTask().uses[0];
  }

  // A task that only stores, behind another one: its execution waits for the stores of the last
  // task, and that costs nothing.
  method StoresOnly() returns (exDep: int, depCost: int)
    ensures exDep == EX_DEP_ST_LAST_TASK && depCost == 0
  {
    var s := new Scheduler(SMALL);
    var io := Io("a", 8, true, 0);
    ghost var first := ExecuteOne(s, io);
    ghost var r := s.LastTask();
    ghost var second := ExecuteOne(s, io);
    assert r == TaskAt(s.history, |s.history| - 2);
    assert GuardedAt(s.history, |s.history| - 1);
    assert Guarded(s.OlderTask(), r, second, 0, s.exDep);
    exDep, depCost := s.exDep, s.depCost;
    NoLoads(map[0 := io]);
  }

  // An I/O of nine bytes takes three words, which are more than the bank has.
  method LargeIo() returns (info: IoInfo, io: Io)
    ensures io.memSize > SMALL.sizeofBank && io.iob == 0
    ensures info.addr + io.memSize > SMALL.bankNum * SMALL.sizeofBank
  {
    var s := new Scheduler(SMALL);
    io := Io("a", 9, false, 0);
    ghost var use := ExecuteOne(s, io);
    info := s.infos[0];
  }
}
