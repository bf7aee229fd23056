/** lockbox.c, inbox.c and waystation.c in place: tables indexed by slot, a byte ring per slot,
    rows of held segments. */
module ReceivePath {
  import opened Words
  import opened Rapport
  import opened ReceiveModel

  const CAPACITY := 64
  const MAX_PER_IP := 8

  type Id = i: nat | i < CAPACITY

  datatype Tuple = Tuple(localPort: u16, remoteIp: u32, remotePort: u16, protocol: u8)

  datatype Entry = Entry(tuple: Tuple, buffered: nat, inUse: bool)

  datatype ClaimResult = Claimed(id: nat) | TableFull | IpQuota | AlreadyExists

  function CountForIp(table: seq<Entry>, ip: u32): nat {
    if table == [] then 0
    else
      var last := table[|table| - 1];
      CountForIp(table[..|table| - 1], ip) + (if last.inUse && last.tuple.remoteIp == ip then 1 else 0)
  }

  lemma {:induction false} WrapSucc(g: u32, n: nat)
    requires g == Wrap32(n)
    ensures Wrap32(g + 1) == Wrap32(n + 1)
  {
  }

  class LockBox {
    var table: seq<Entry>
    var generation: seq<u32>
    /** Every claim ever made of a slot, of which `generation` keeps 32 bits. */
    ghost var claims: seq<nat>

    ghost predicate Valid()
      reads this
    {
      && |table| == |generation| == |claims| == CAPACITY
      && forall i :: 0 <= i < CAPACITY ==> generation[i] == Wrap32(claims[i])
    }

    constructor ()
      ensures Valid() && forall i :: 0 <= i < CAPACITY ==> !table[i].inUse && claims[i] == 0 && table[i].buffered == 0
    {
      table := seq(CAPACITY, _ => Entry(Tuple(0, 0, 0, 0), 0, false));
      generation := seq(CAPACITY, _ => 0);
      claims := seq(CAPACITY, _ => 0);
    }

    /** The slot of this exact connection, or CAPACITY. */
    method FindConnection(t: Tuple) returns (id: nat)
      requires Valid()
      ensures id <= CAPACITY
      ensures id < CAPACITY ==> table[id].inUse && table[id].tuple == t
      ensures forall j :: 0 <= j < id ==> !(table[j].inUse && table[j].tuple == t)
    {
      id := 0;
      while id < CAPACITY && !(table[id].inUse && table[id].tuple == t)
        invariant id <= CAPACITY
        invariant forall j :: 0 <= j < id ==> !(table[j].inUse && table[j].tuple == t)
      {
        id := id + 1;
      }
    }

    /** A claim of a new connection takes the first free slot, unless the pair is already
        claimed or the peer holds its quota. */
    method Claim(t: Tuple) returns (r: ClaimResult)
      requires Valid()
      modifies this
      ensures Valid()
      ensures r.AlreadyExists? <==> exists j :: 0 <= j < CAPACITY && old(table)[j].inUse && old(table)[j].tuple == t
      ensures !r.AlreadyExists? ==> (r.IpQuota? <==> CountForIp(old(table), t.remoteIp) >= MAX_PER_IP)
      ensures r.TableFull? ==> forall j :: 0 <= j < CAPACITY ==> table[j].inUse
      ensures !r.Claimed? ==> unchanged(this)
      ensures r.Claimed? ==>
        && r.id < CAPACITY && !old(table)[r.id].inUse
        && (forall j :: 0 <= j < r.id ==> old(table)[j].inUse)
        && table == old(table)[r.id := Entry(t, 0, true)]
        && claims == old(claims)[r.id := old(claims)[r.id] + 1]
    {
      hide CountForIp;
      var found := FindConnection(t);
      if found < CAPACITY {
        return AlreadyExists;
      }
      var n := CountPeer(t.remoteIp);
      if n >= MAX_PER_IP {
        return IpQuota;
      }
      var i := FindUnused();
      if i == CAPACITY {
        return TableFull;
      }
      table := table[i := Entry(t, 0, true)];
      var gen: int := generation[i];
      generation := generation[i := Wrap32(gen + 1)];
      claims := claims[i := claims[i] + 1];
      WrapSucc(gen, claims[i] - 1);
      return Claimed(i);
    }

    /** `count_for_ip`. */
    method CountPeer(ip: u32) returns (n: nat)
      requires Valid()
      ensures n == CountForIp(table, ip)
    {
      n := 0;
      var i := 0;
      while i < CAPACITY
        invariant 0 <= i <= CAPACITY && n == CountForIp(table[..i], ip)
      {
        assert table[..i + 1][..i] == table[..i];
        if table[i].inUse && table[i].tuple.remoteIp == ip {
          n := n + 1;
        }
        i := i + 1;
      }
      assert table[..CAPACITY] == table;
    }

    /** The first slot that is not in use, or CAPACITY. */
    method FindUnused() returns (i: nat)
      requires Valid()
      ensures i <= CAPACITY && (i < CAPACITY ==> !table[i].inUse)
      ensures forall j :: 0 <= j < i ==> table[j].inUse
    {
      i := 0;
      while i < CAPACITY && table[i].inUse
        invariant i <= CAPACITY && forall j :: 0 <= j < i ==> table[j].inUse
      {
        i := i + 1;
      }
    }

    method Deposit(id: Id, bytes: u16) returns (ok: bool)
      requires Valid()
      modifies this`table
      ensures Valid()
      ensures ok <==> old(table)[id].inUse && old(table)[id].buffered + bytes <= MAX_BUFFERED
      ensures table ==
        if ok then old(table)[id := old(table)[id].(buffered := old(table)[id].buffered + bytes)] else old(table)
    {
      if !table[id].inUse || table[id].buffered + bytes > MAX_BUFFERED {
        return false;
      }
      table := table[id := table[id].(buffered := table[id].buffered + bytes)];
      return true;
    }

    method Consume(id: Id, bytes: u16)
      requires Valid()
      modifies this`table
      ensures Valid()
      ensures table == old(table)[id := old(table)[id].(buffered :=
        if bytes > old(table)[id].buffered then 0 else old(table)[id].buffered - bytes)]
    {
      if bytes > table[id].buffered {
        table := table[id := table[id].(buffered := 0)];
      } else {
        table := table[id := table[id].(buffered := table[id].buffered - bytes)];
      }
    }

    method Release(id: Id)
      requires Valid()
      modifies this`table
      ensures Valid() && table == old(table)[id := old(table)[id].(inUse := false)]
    {
      table := table[id := table[id].(inUse := false)];
    }
  }

  /** The cell `i` places after `pos` in a ring row. */
  function Cell(pos: nat, i: nat): (c: nat)
    ensures c < MAX_BUFFERED
  {
    (pos + i) % MAX_BUFFERED
  }

  /** `n` bytes of row `id` from `pos` on, wrapping at the end of the row. */
  ghost function RingBytes(storage: array2<u8>, id: Id, pos: nat, n: nat): (s: seq<u8>)
    requires storage.Length0 == CAPACITY && storage.Length1 == MAX_BUFFERED
    reads storage
    ensures |s| == n
  {
    seq(n, i requires 0 <= i < n reads storage => storage[id, Cell(pos, i)])
  }

  class Inbox {
    const lockbox: LockBox
    const storage: array2<u8>
    var writePos: seq<nat>
    var readPos: seq<nat>
    var count: seq<nat>
    var seenGeneration: seq<u32>
    ghost var seen: seq<nat>

    ghost predicate Valid()
      reads this, lockbox
    {
      && lockbox.Valid()
      && storage.Length0 == CAPACITY && storage.Length1 == MAX_BUFFERED
      && |writePos| == |readPos| == |count| == |seenGeneration| == |seen| == CAPACITY
      && forall i :: 0 <= i < CAPACITY ==>
           && readPos[i] < MAX_BUFFERED && count[i] <= MAX_BUFFERED
           && writePos[i] == Cell(readPos[i], count[i])
           && seenGeneration[i] == Wrap32(seen[i])
    }

    /** The slot as inbox.c and lockbox.c see it; the other two parts are left blank. */
    ghost function Plain(id: Id): Slot
      requires Valid()
      reads this, lockbox, storage
    {
      Slot(lockbox.table[id].inUse, lockbox.table[id].buffered, lockbox.claims[id],
           RingBytes(storage, id, readPos[id], count[id]), seen[id], [Free, Free, Free, Free], 0, ZERO_CONN)
    }

    constructor (box: LockBox)
      requires box.Valid()
      ensures Valid() && lockbox == box && fresh(storage)
      ensures forall i :: 0 <= i < CAPACITY ==> count[i] == 0 && seen[i] == 0
    {
      lockbox := box;
      storage := new u8[CAPACITY, MAX_BUFFERED]((i, j) => 0);
      writePos := seq(CAPACITY, _ => 0);
      readPos := seq(CAPACITY, _ => 0);
      count := seq(CAPACITY, _ => 0);
      seenGeneration := seq(CAPACITY, _ => 0);
      seen := seq(CAPACITY, _ => 0);
    }

    ghost predicate OthersKept(id: Id, w: seq<nat>, r: seq<nat>, c: seq<nat>, s: seq<nat>)
      requires Valid() && |w| == |r| == |c| == |s| == CAPACITY
      reads this, lockbox
    {
      forall i :: 0 <= i < CAPACITY && i != id ==>
        writePos[i] == w[i] && readPos[i] == r[i] && count[i] == c[i] && seen[i] == s[i]
    }

    method ResetIfStale(id: Id)
      requires Valid()
      modifies this
      ensures Valid() && seen == old(seen)[id := lockbox.claims[id]]
      ensures count == old(count)[id :=
        if Wrap32(old(seen)[id]) == Wrap32(lockbox.claims[id]) then old(count)[id] else 0]
      ensures OthersKept(id, old(writePos), old(readPos), old(count), old(seen))
      ensures Wrap32(old(seen)[id]) == Wrap32(lockbox.claims[id]) ==> readPos[id] == old(readPos)[id]
    {
      var gen := lockbox.generation[id];
      if seenGeneration[id] != gen {
        writePos := writePos[id := 0];
        readPos := readPos[id := 0];
        count := count[id := 0];
        seenGeneration := seenGeneration[id := gen];
      }
      seen := seen[id := lockbox.claims[id]];
    }

    /** `inbox_deposit`: the bytes go behind the ring, or nothing changes but freshness. */
    method Deposit(id: Id, payload: Payload) returns (ok: bool)
      requires Valid()
      requires lockbox.table[id].buffered == |Pending(Plain(id))|
      modifies this, lockbox`table, storage
      ensures Valid()
      ensures ok <==> Accepts(old(Plain(id)), |payload|)
      ensures Plain(id)
           == ReceiveModel.Deposit(old(Plain(id)), payload)
      ensures forall i: Id :: i != id ==> Plain(i) == old(Plain(i))
    {
      hide Cell;
      ResetIfStale(id);
      ok := lockbox.Deposit(id, |payload|);
      if ok {
        Append(id, payload);
      }
    }

    /** The copying loop of `inbox_deposit` and the new count. */
    method Append(id: Id, payload: Payload)
      requires Valid() && count[id] + |payload| <= MAX_BUFFERED
      modifies this`writePos, this`count, storage
      ensures Valid() && count == old(count)[id := old(count)[id] + |payload|]
      ensures RingBytes(storage, id, readPos[id], count[id])
           == old(RingBytes(storage, id, readPos[id], count[id])) + payload
      ensures forall j :: 0 <= j < CAPACITY && j != id ==> writePos[j] == old(writePos)[j]
      ensures forall j: Id, k :: j != id && 0 <= k < MAX_BUFFERED ==> storage[j, k] == old(storage[j, k])
    {
      hide Cell;
      var i := 0;
      ghost var r, n := readPos[id], count[id];
      ghost var before := RingBytes(storage, id, r, n);
      while i < |payload|
        invariant 0 <= i <= |payload|
        invariant |writePos| == CAPACITY && writePos[id] == Cell(r, n + i)
        invariant forall j :: 0 <= j < CAPACITY && j != id ==> writePos[j] == old(writePos)[j]
        invariant RingBytes(storage, id, r, n + i) == before + payload[..i]
        invariant forall j: Id, k :: j != id && 0 <= k < MAX_BUFFERED ==> storage[j, k] == old(storage[j, k])
        modifies this`writePos, storage
      {
        ghost var ring := RingBytes(storage, id, r, n + i);
        StoreBehind(r, n + i);
        storage[id, writePos[id]] := payload[i];
        assert RingBytes(storage, id, r, n + i + 1) == ring + [payload[i]];
        assert before + payload[..i + 1] == before + payload[..i] + [payload[i]];
        writePos := writePos[id := Cell(writePos[id], 1)];
        i := i + 1;
      }
      assert payload[..i] == payload;
      count := count[id := count[id] + |payload|];
    }

    /** `inbox_read`: the oldest bytes leave the ring, at most `max` of them. */
    method Read(id: Id, max: u16) returns (out: seq<u8>)
      requires Valid()
      modifies this, lockbox`table
      ensures Valid()
      ensures out == ReadBytes(old(Plain(id)), max)
      ensures Plain(id)
           == AfterRead(old(Plain(id)), max)
      ensures forall i: Id :: i != id ==> Plain(i) == old(Plain(i))
    {
      hide Cell;
      ResetIfStale(id);
      var n := if max < count[id] then max else count[id];
      out := Take(id, n);
      if n > 0 {
        lockbox.Consume(id, n);
      }
    }

    /** The copying loop of `inbox_read` and the new count. */
    method Take(id: Id, n: nat) returns (out: seq<u8>)
      requires Valid() && n <= count[id]
      modifies this`readPos, this`count
      ensures Valid() && count == old(count)[id := old(count)[id] - n]
      ensures out == old(RingBytes(storage, id, readPos[id], count[id]))[..n]
      ensures RingBytes(storage, id, readPos[id], count[id]) == old(RingBytes(storage, id, readPos[id], count[id]))[n..]
      ensures forall j :: 0 <= j < CAPACITY && j != id ==> readPos[j] == old(readPos)[j]
    {
      hide Cell;
      ghost var r, c, ring := readPos[id], count[id], RingBytes(storage, id, readPos[id], count[id]);
      out := [];
      assert Cell(r, 0) == r by { SkipAhead(r, 0, 0); }
      var i := 0;
      while i < n
        invariant 0 <= i <= n && out == ring[..i]
        invariant |readPos| == CAPACITY && readPos[id] == Cell(r, i)
        invariant forall j :: 0 <= j < CAPACITY && j != id ==> readPos[j] == old(readPos)[j]
        modifies this`readPos
      {
        SkipAhead(r, i, 1);
        assert ring[i] == storage[id, Cell(r, i)];
        assert ring[..i + 1] == ring[..i] + [ring[i]];
        out := out + [storage[id, readPos[id]]];
        readPos := readPos[id := Cell(readPos[id], 1)];
        i := i + 1;
      }
      count := count[id := count[id] - n];
      forall j | 0 <= j <= c - n ensures Cell(readPos[id], j) == Cell(r, n + j) { SkipAhead(r, n, j); }
      assert RingBytes(storage, id, readPos[id], c - n) == ring[n..];
    }

    method Available(id: Id) returns (n: nat)
      requires Valid()
      modifies this
      ensures Valid()
      ensures Plain(id)
           == FreshInbox(old(Plain(id)))
      ensures n == |Pending(old(Plain(id)))|
      ensures forall i: Id :: i != id ==> Plain(i) == old(Plain(i))
    {
      ResetIfStale(id);
      n := count[id];
    }
  }

  /** The cell behind a ring of `n` bytes is none of its cells. */
  lemma {:induction false} StoreBehind(r: nat, n: nat)
    requires n < MAX_BUFFERED
    ensures forall j :: 0 <= j < n ==> Cell(r, j) != Cell(r, n)
    ensures Cell(Cell(r, n), 1) == Cell(r, n + 1)
  {
    forall j | 0 <= j < n ensures Cell(r, j) != Cell(r, n) { CellsDiffer(r + j, r + n); }
    SkipAhead(r, n, 1);
  }

  lemma {:induction false} CellsDiffer(x: nat, y: nat)
    requires x < y < x + MAX_BUFFERED
    ensures x % MAX_BUFFERED != y % MAX_BUFFERED
  {
  }

  lemma {:induction false} RestShift(x: nat, j: nat)
    ensures (x % MAX_BUFFERED + j) % MAX_BUFFERED == (x + j) % MAX_BUFFERED
  {
  }

  lemma {:induction false} SkipAhead(r: nat, n: nat, j: nat)
    ensures Cell(Cell(r, n), j) == Cell(r, n + j)
    ensures n == 0 && r < MAX_BUFFERED ==> Cell(r, 0) == r
  {
    RestShift(r + n, j);
  }

  class RapportTable {
    var conns: seq<Conn>

    ghost predicate Valid()
      reads this
    {
      |conns| == CAPACITY
    }

    constructor ()
      ensures Valid() && forall i :: 0 <= i < CAPACITY ==> conns[i] == ZERO_CONN
    {
      conns := seq(CAPACITY, _ => ZERO_CONN);
    }
  }

  class WayStation {
    const inbox: Inbox
    const rapport: RapportTable
    var rows: seq<Rows>
    var seenGeneration: seq<u32>
    ghost var seen: seq<nat>

    ghost predicate Valid()
      reads this, inbox, inbox.lockbox, rapport
    {
      && inbox.Valid() && rapport.Valid()
      && |rows| == |seenGeneration| == |seen| == CAPACITY
      && forall i :: 0 <= i < CAPACITY ==> seenGeneration[i] == Wrap32(seen[i])
    }

    ghost function View(id: Id): Slot
      requires Valid()
      reads this, inbox, inbox.lockbox, inbox.storage, rapport
    {
      inbox.Plain(id).(rows := rows[id], wayGen := seen[id], conn := rapport.conns[id])
    }

    constructor (i: Inbox, r: RapportTable)
      requires i.Valid() && r.Valid()
      ensures Valid() && inbox == i && rapport == r
      ensures forall k :: 0 <= k < CAPACITY ==> rows[k] == [Free, Free, Free, Free] && seen[k] == 0
    {
      inbox := i;
      rapport := r;
      rows := seq(CAPACITY, _ => [Free, Free, Free, Free]);
      seenGeneration := seq(CAPACITY, _ => 0);
      seen := seq(CAPACITY, _ => 0);
    }

    method ResetIfStale(id: Id)
      requires Valid()
      modifies this
      ensures Valid() && View(id) == FreshWay(old(View(id)))
      ensures forall i: Id :: i != id ==> View(i) == old(View(i))
    {
      var gen := inbox.lockbox.generation[id];
      if seenGeneration[id] != gen {
        var row, i: int := rows[id], 0;
        while i < MAX_PENDING
          invariant 0 <= i <= MAX_PENDING && |row| == MAX_PENDING
          invariant forall j :: 0 <= j < i ==> row[j] == Free
        {
          row := row[i := Free];
          i := i + 1;
        }
        assert row == [Free, Free, Free, Free];
        rows := rows[id := row];
        seenGeneration := seenGeneration[id := gen];
      }
      seen := seen[id := inbox.lockbox.claims[id]];
    }

    method Hold(id: Id, seqNo: u32, payload: Payload) returns (ok: bool)
      requires Valid()
      modifies this
      ensures Valid() && View(id) == ReceiveModel.Hold(old(View(id)), seqNo, payload)
      ensures ok <==>
        && 0 < |payload| <= MAX_SEGMENT
        && exists i :: 0 <= i < MAX_PENDING && rows[id][i].Held? && rows[id][i].seqNo == seqNo
      ensures forall i: Id :: i != id ==> View(i) == old(View(i))
    {
      if |payload| == 0 || |payload| > MAX_SEGMENT {
        return false;
      }
      ResetIfStale(id);
      var row, free, i := rows[id], MAX_PENDING, 0;
      while i < MAX_PENDING
        invariant 0 <= i <= MAX_PENDING && free <= MAX_PENDING
        invariant FindHeld(row, seqNo, 0) == FindHeld(row, seqNo, i)
        invariant FindFree(row, 0) == if free < MAX_PENDING then free else FindFree(row, i)
      {
        if row[i].Held? && row[i].seqNo == seqNo {
          return true;
        }
        if row[i].Free? && free == MAX_PENDING {
          free := i;
        }
        i := i + 1;
      }
      if free == MAX_PENDING {
        return false;
      }
      rows := rows[id := row[free := Held(seqNo, payload)]];
      assert rows[id][free].Held?;
      return true;
    }

    method Drain(id: Id) returns (drained: nat)
      requires Valid() && SlotOk(View(id))
      modifies this, inbox, inbox.storage, inbox.lockbox`table, rapport
      ensures Valid() && View(id) == ReceiveModel.Drain(old(View(id)))
      ensures drained == HeldCount(Waiting(old(View(id)))) - HeldCount(rows[id])
      ensures forall i: Id :: i != id ==> View(i) == old(View(i))
    {
      hide SlotOk, DeliverRow, FreshInbox, Accepts;
      FreshSlot(View(id));
      ResetIfStale(id);
      drained := 0;
      ghost var start := View(id);
      var more := true;
      while more
        invariant Valid() && (more ==> SlotOk(View(id)))
        invariant DrainLoop(start) == if more then DrainLoop(View(id)) else View(id)
        invariant drained + HeldCount(rows[id]) == HeldCount(start.rows)
        invariant forall i: Id :: i != id ==> View(i) == old(View(i))
        decreases more, HeldCount(rows[id])
      {
        more := DeliverNext(id);
        if more {
          drained := drained + 1;
        }
      }
    }

    /** One turn of the drain loop. */
    method DeliverNext(id: Id) returns (more: bool)
      requires Valid() && SlotOk(View(id))
      modifies this, inbox, inbox.storage, inbox.lockbox`table, rapport
      ensures Valid()
      ensures forall i: Id :: i != id ==> View(i) == old(View(i))
      ensures var s := old(View(id)); var i := FindHeld(s.rows, s.conn.expected, 0);
        && more == (i < MAX_PENDING && Accepts(FreshInbox(s), |s.rows[i].data|))
        && View(id) == (if i == MAX_PENDING then s else if more then DeliverRow(s, i) else FreshInbox(s))
        && (more ==> SlotOk(View(id)))
      ensures HeldCount(rows[id]) == HeldCount(old(rows)[id]) - if more then 1 else 0
    {
      hide SlotOk, HeldCount;
      ghost var s := View(id);
      var found := FindRow(id, rapport.conns[id].expected);
      if found == MAX_PENDING {
        return false;
      }
      DepositReady(s);
      var data := rows[id][found].data;
      more := inbox.Deposit(id, data);
      if more {
        var expected: int := rapport.conns[id].expected;
        rapport.conns := rapport.conns[id := rapport.conns[id].(expected := Wrap32(expected + |data|))];
        rows := rows[id := rows[id][found := Free]];
        HeldCountFree(s.rows, found);
        DeliverSlot(s, found);
      }
    }

    /** Free ring space less what is held, never more than 16 bits. */
    method ReceiveWindow(id: Id) returns (window: int)
      requires Valid() && SlotOk(View(id))
      modifies this, inbox
      ensures Valid() && View(id) == Touch(old(View(id)))
      ensures window == Window(old(View(id))) && 0 <= window <= MAX_BUFFERED
      ensures forall i: Id :: i != id ==> View(i) == old(View(i))
    {
      ResetIfStale(id);
      var available := inbox.Available(id);
      var free := MAX_BUFFERED - available;
      var held, i: nat := 0, 0;
      assert rows[id][0..] == rows[id];
      while i < MAX_PENDING
        invariant i <= MAX_PENDING && held + HeldBytes(rows[id][i..]) == HeldBytes(rows[id])
      {
        assert rows[id][i..][1..] == rows[id][i + 1..];
        if rows[id][i].Held? {
          held := held + |rows[id][i].data|;
        }
        i := i + 1;
      }
      if held >= free {
        return 0;
      }
      window := if free - held > 0xFFFF then 0xFFFF else free - held;
    }

    method FindRow(id: Id, seqNo: u32) returns (i: nat)
      requires Valid()
      ensures i == FindHeld(rows[id], seqNo, 0)
    {
      i := 0;
      while i < MAX_PENDING && !(rows[id][i].Held? && rows[id][i].seqNo == seqNo)
        invariant i <= MAX_PENDING && FindHeld(rows[id], seqNo, 0) == FindHeld(rows[id], seqNo, i)
      {
        i := i + 1;
      }
    }
  }

  lemma {:induction false} FreshSlot(s: Slot)
    requires SlotOk(s)
    ensures SlotOk(FreshWay(s)) && SlotOk(FreshInbox(s))
  {
  }

  lemma {:induction false} DepositReady(s: Slot)
    requires SlotOk(s)
    ensures s.buffered == |Pending(s)|
  {
  }

  lemma {:induction false} DeliverSlot(s: Slot, i: nat)
    requires SlotOk(s) && i < MAX_PENDING && s.rows[i].Held? && Accepts(FreshInbox(s), |s.rows[i].data|)
    ensures SlotOk(DeliverRow(s, i))
  {
  }
}
