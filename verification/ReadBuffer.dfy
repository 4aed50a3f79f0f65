/** The read buffer of a connection (include/nativepg/protocol/detail/read_buffer.hpp): one
    resizable chunk of memory that holds consumed, committed and prepared bytes. It refines
    a queue of bytes: the committed ones. */
module ReadBuffer {
  import opened Messages

  /** The largest value of a size: 64 bits. */
  const SizeMax: nat := 0xffff_ffff_ffff_ffff

  /** The largest power of two that is a size. */
  const TopPower: nat := 0x8000_0000_0000_0000

  predicate IsPowerOfTwo(n: nat) {
    n == 1 || (n > 0 && n % 2 == 0 && IsPowerOfTwo(n / 2))
  }

  /** Between two powers of two there is a factor of two. */
  lemma {:induction false} PowersDouble(a: nat, b: nat)
    requires IsPowerOfTwo(a) && IsPowerOfTwo(b) && a < b
    ensures 2 * a <= b
  {
    if a > 1 {
      PowersDouble(a / 2, b / 2);
    }
  }

  /** The smallest power of two that is at least n, from the power p on. */
  function BitCeil(n: nat, p: nat): (r: nat)
    requires IsPowerOfTwo(p) && (p == 1 || p < 2 * n)
    ensures IsPowerOfTwo(r) && r >= n && (r == 1 || r < 2 * n)
    decreases n - p
  {
    if p >= n then p else BitCeil(n, 2 * p)
  }

  function Power(k: nat): nat {
    if k == 0 then 1 else 2 * Power(k - 1)
  }

  lemma {:induction false} PowerIsPower(k: nat)
    ensures IsPowerOfTwo(Power(k))
  {
    if k > 0 {
      PowerIsPower(k - 1);
    }
  }

  lemma {:induction false} PowerAdd(a: nat, b: nat)
    ensures Power(a + b) == Power(a) * Power(b)
  {
    if b > 0 {
      PowerAdd(a, b - 1);
      assert Power(a + b) == 2 * Power(a + (b - 1));
    }
  }

  lemma {:induction false} TopIsPower()
    ensures IsPowerOfTwo(TopPower)
  {
    assert Power(16) == 0x1_0000 && Power(15) == 0x8000;
    hide Power, IsPowerOfTwo;
    PowerAdd(16, 16);
    PowerAdd(32, 16);
    PowerAdd(48, 15);
    PowerIsPower(63);
  }

  /** next_power_of_2: the smallest power of two that is not below n, if one fits in a size. */
  function NextPowerOf2(n: nat): (r: nat)
    requires n <= SizeMax
    ensures n <= r <= SizeMax && r > 0
    ensures n <= TopPower ==> IsPowerOfTwo(r) && r <= TopPower && (r == 1 || r < 2 * n)
    ensures n <= TopPower ==> forall q: nat :: IsPowerOfTwo(q) && q >= n ==> r <= q
    ensures n > TopPower ==> r == SizeMax
  {
    if n <= TopPower then
      var r := BitCeil(n, 1);
      Smallest(n, r);
      TopIsPower();
      r
    else SizeMax
  }

  lemma {:induction false} Smallest(n: nat, r: nat)
    requires IsPowerOfTwo(r) && (r == 1 || r < 2 * n)
    ensures forall q: nat :: IsPowerOfTwo(q) && q >= n ==> r <= q
  {
    forall q: nat | IsPowerOfTwo(q) && q >= n ensures r <= q {
      if q < r {
        PowersDouble(q, r);
      }
    }
  }

  function Min(a: nat, b: nat): nat {
    if a <= b then a else b
  }

  predicate GoodCapacity(n: nat) {
    (IsPowerOfTwo(n) && n <= TopPower) || n == SizeMax
  }

  class Buffer {
    var bytes: array<Byte>
    var committed: nat
    var prepared: nat

    ghost predicate Valid()
      reads this
    {
      committed <= prepared <= bytes.Length && GoodCapacity(bytes.Length)
    }

    /** The queue of bytes that this buffer stands for. */
    ghost function Contents(): (q: seq<Byte>)
      reads this, bytes
      requires Valid()
      ensures |q| == prepared - committed
    {
      bytes[committed..prepared]
    }

    /** The bytes of the prepared area, which the next commit appends. */
    ghost function Prepared(): (q: seq<Byte>)
      reads this, bytes
      requires Valid()
      ensures |q| == bytes.Length - prepared
    {
      bytes[prepared..]
    }

    constructor (initialSize: nat)
      requires initialSize <= SizeMax
      ensures Valid() && fresh(bytes) && Contents() == [] && bytes.Length == NextPowerOf2(initialSize)
    {
      bytes := new Byte[NextPowerOf2(initialSize)];
      committed, prepared := 0, 0;
    }

    method Reset()
      requires Valid()
      modifies this`committed, this`prepared
      ensures Valid() && Contents() == [] && committed == 0
    {
      committed, prepared := 0, 0;
    }

    /** memmove of the committed area to the front. */
    method MoveToFront()
      requires Valid()
      modifies this`committed, this`prepared, bytes
      ensures Valid() && Contents() == old(Contents()) && committed == 0
    {
      var n := prepared - committed;
      var i := 0;
      while i < n
        invariant 0 <= i <= n && committed == old(committed) && prepared == old(prepared)
        invariant forall k | 0 <= k < i :: bytes[k] == old(bytes[committed + k])
        invariant forall k | committed + i <= k < prepared :: bytes[k] == old(bytes[k])
      {
        bytes[i] := bytes[committed + i];
        i := i + 1;
      }
      committed, prepared := 0, n;
      assert forall k | 0 <= k < n :: Contents()[k] == old(Contents())[k];
    }

    /** The reallocation: a new array with the committed bytes at its front. */
    method Reallocate(size: nat)
      requires Valid() && GoodCapacity(size) && prepared - committed <= size
      modifies this
      ensures Valid() && Contents() == old(Contents()) && committed == 0
      ensures fresh(bytes) && bytes.Length == size
    {
      var n := prepared - committed;
      var data := new Byte[size];
      var i := 0;
      while i < n
        invariant 0 <= i <= n && unchanged(this)
        invariant forall k | 0 <= k < i :: data[k] == bytes[committed + k]
      {
        data[i] := bytes[committed + i];
        i := i + 1;
      }
      bytes, committed, prepared := data, 0, n;
      assert forall k | 0 <= k < n :: Contents()[k] == old(Contents())[k];
    }

    /** prepare: room for the required bytes. The committed bytes are not altered; memory is
        allocated only if the buffer is too small for the committed and the required bytes
        together, and then its size at least doubles and stays below twice that sum, unless
        no power of two that large is a size. */
    method Prepare(required: nat)
      requires Valid() && prepared - committed + required <= SizeMax
      modifies this, bytes
      ensures Valid() && Contents() == old(Contents()) && |Prepared()| >= required
      ensures bytes == old(bytes) || fresh(bytes)
      ensures bytes == old(bytes) <==> |old(Contents())| + required <= old(bytes.Length)
      ensures bytes != old(bytes) && |old(Contents())| + required <= TopPower ==>
        && IsPowerOfTwo(bytes.Length)
        && 2 * old(bytes.Length) <= bytes.Length < 2 * (|old(Contents())| + required)
      ensures bytes != old(bytes) && |old(Contents())| + required > TopPower ==> bytes.Length == SizeMax
      ensures bytes != old(bytes) ==> bytes.Length == NextPowerOf2(|old(Contents())| + required)
      ensures if |old(Prepared())| >= required then committed == old(committed) && Prepared() == old(Prepared()) else committed == 0
    {
      if bytes.Length - prepared >= required {
        return;
      }
      if committed + (bytes.Length - prepared) >= required {
        MoveToFront();
        return;
      }
      var size := NextPowerOf2(prepared - committed + required);
      if size <= TopPower && bytes.Length <= TopPower {
        PowersDouble(bytes.Length, size);
      }
      Reallocate(size);
    }

    /** A read of the connection stores bytes at the front of the prepared area. */
    method Fill(data: seq<Byte>)
      requires Valid() && |data| <= bytes.Length - prepared
      modifies bytes
      ensures Contents() == old(Contents()) && Prepared() == data + old(Prepared())[|data|..]
    {
      var i := 0;
      while i < |data|
        invariant 0 <= i <= |data|
        invariant forall k | 0 <= k < i :: bytes[prepared + k] == data[k]
        invariant forall k | 0 <= k < prepared || prepared + i <= k < bytes.Length :: bytes[k] == old(bytes[k])
      {
        bytes[prepared + i] := data[i];
        i := i + 1;
      }
      assert forall k | 0 <= k < bytes.Length - prepared ::
        Prepared()[k] == if k < |data| then data[k] else old(Prepared())[k];
    }

    method Commit(n: nat)
      requires Valid()
      modifies this`prepared
      ensures Valid()
      ensures var k := Min(n, |old(Prepared())|);
        Contents() == old(Contents()) + old(Prepared())[..k] && Prepared() == old(Prepared())[k..]
    {
      var k := if n <= bytes.Length - prepared then n else bytes.Length - prepared;
      prepared := prepared + k;
    }

    method Consume(n: nat)
      requires Valid()
      modifies this`committed
      ensures Valid()
      ensures var k := Min(n, |old(Contents())|); Contents() == old(Contents())[k..] && committed == old(committed) + k
      ensures prepared == old(prepared) && Prepared() == old(Prepared())
    {
      var k := if n <= prepared - committed then n else prepared - committed;
      committed := committed + k;
    }
  }

  // ----- every sequence of operations

  datatype Op = Prepare(required: nat) | Write(data: seq<Byte>) | Commit(n: nat) | Consume(n: nat) | Reset

  /** A byte of which nothing is known is None: it was never written. */
  type Bytes = seq<Option<Byte>>

  /** What the buffer refines: the number of consumed bytes still in it, the queue of the
      committed ones, and the prepared area. */
  datatype Abstract = Abstract(consumed: nat, queue: Bytes, area: Bytes)

  function Unknown(n: nat): Bytes {
    seq(n, _ => None)
  }

  function Known(data: seq<Byte>): (k: Bytes)
    ensures |k| == |data| && forall i | 0 <= i < |k| :: k[i] == Some(data[i])
  {
    seq(|data|, i requires 0 <= i < |data| => Some(data[i]))
  }

  function Capacity(a: Abstract): nat {
    a.consumed + |a.queue| + |a.area|
  }

  function Apply(a: Abstract, op: Op): Abstract
    requires Allowed(a, op)
  {
    match op
    case Prepare(required) =>
      if |a.area| >= required then a
      else
        var size := if |a.queue| + required <= Capacity(a) then Capacity(a) else NextPowerOf2(|a.queue| + required);
        Abstract(0, a.queue, Unknown(size - |a.queue|))
    case Write(data) => a.(area := Known(data) + a.area[|data|..])
    case Commit(n) => var k := Min(n, |a.area|); a.(queue := a.queue + a.area[..k], area := a.area[k..])
    case Consume(n) => var k := Min(n, |a.queue|); a.(consumed := a.consumed + k, queue := a.queue[k..])
    case Reset => Abstract(0, [], Unknown(Capacity(a)))
  }

  /** A write stays in the prepared area, and no size overflows. */
  predicate Allowed(a: Abstract, op: Op) {
    match op
    case Prepare(required) => |a.queue| + required <= SizeMax
    case Write(data) => |data| <= |a.area|
    case _ => true
  }

  predicate AllAllowed(a: Abstract, ops: seq<Op>)
    decreases |ops|
  {
    ops == [] || (Allowed(a, ops[0]) && AllAllowed(Apply(a, ops[0]), ops[1..]))
  }

  function ApplyAll(a: Abstract, ops: seq<Op>): Abstract
    requires AllAllowed(a, ops)
    decreases |ops|
  {
    if ops == [] then a else ApplyAll(Apply(a, ops[0]), ops[1..])
  }

  /** What an operation commits, and how many bytes it takes out. */
  function Gains(a: Abstract, op: Op): Bytes {
    if op.Commit? then a.area[..Min(op.n, |a.area|)] else []
  }

  function Takes(a: Abstract, op: Op): (n: nat)
    ensures n <= |a.queue|
  {
    if op.Consume? then Min(op.n, |a.queue|) else if op.Reset? then |a.queue| else 0
  }

  function GainsAll(a: Abstract, ops: seq<Op>): Bytes
    requires AllAllowed(a, ops)
    decreases |ops|
  {
    if ops == [] then [] else Gains(a, ops[0]) + GainsAll(Apply(a, ops[0]), ops[1..])
  }

  function TakesAll(a: Abstract, ops: seq<Op>): nat
    requires AllAllowed(a, ops)
    decreases |ops|
  {
    if ops == [] then 0 else Takes(a, ops[0]) + TakesAll(Apply(a, ops[0]), ops[1..])
  }

  lemma {:induction false} OneOp(a: Abstract, op: Op)
    requires Allowed(a, op)
    ensures Apply(a, op).queue == (a.queue + Gains(a, op))[Takes(a, op)..]
  {
    hide NextPowerOf2;
  }

  lemma {:induction false} Shift(q: Bytes, g: Bytes, t: nat, later: Bytes, n: nat)
    requires t <= |q| && n <= |(q + g)[t..] + later|
    ensures t + n <= |q + (g + later)| && ((q + g)[t..] + later)[n..] == (q + (g + later))[t + n..]
  {
  }

  /** First in, first out: the queue is what was there and what was committed, in order,
      without as many bytes at its front as were taken out. */
  lemma {:induction false} FirstInFirstOut(a: Abstract, ops: seq<Op>)
    requires AllAllowed(a, ops)
    ensures var all := a.queue + GainsAll(a, ops);
      TakesAll(a, ops) <= |all| && ApplyAll(a, ops).queue == all[TakesAll(a, ops)..]
    decreases |ops|
  {
    hide Apply, Gains, Takes, Allowed;
    if ops == [] {
      assert a.queue + [] == a.queue;
    } else {
      var b, rest := Apply(a, ops[0]), ops[1..];
      FirstInFirstOut(b, rest);
      OneOp(a, ops[0]);
      Shift(a.queue, Gains(a, ops[0]), Takes(a, ops[0]), GainsAll(b, rest), TakesAll(b, rest));
    }
  }

  /** The bytes are those that are known. */
  predicate Agrees(s: seq<Byte>, k: Bytes) {
    |s| == |k| && forall i | 0 <= i < |k| && k[i].Some? :: s[i] == k[i].value
  }

  ghost predicate Represents(b: Buffer, a: Abstract)
    reads b, b.bytes
  {
    b.Valid() && b.committed == a.consumed && Agrees(b.Contents(), a.queue) && Agrees(b.Prepared(), a.area)
  }

  method RunPrepare(b: Buffer, required: nat, ghost a: Abstract)
    requires Represents(b, a) && Allowed(a, Prepare(required))
    modifies b, b.bytes
    ensures Represents(b, Apply(a, Prepare(required))) && (b.bytes == old(b.bytes) || fresh(b.bytes))
  {
    hide IsPowerOfTwo, NextPowerOf2, Agrees, GoodCapacity;
    AgreesLength(b.Contents(), a.queue);
    AgreesLength(b.Prepared(), a.area);
    b.Prepare(required);
    AgreesUnknown(b.Prepared());
  }

  method RunWrite(b: Buffer, data: seq<Byte>, ghost a: Abstract)
    requires Represents(b, a) && Allowed(a, Write(data))
    modifies b, b.bytes
    ensures Represents(b, Apply(a, Write(data))) && (b.bytes == old(b.bytes) || fresh(b.bytes))
  {
    hide IsPowerOfTwo, NextPowerOf2, Agrees, GoodCapacity;
    AgreesLength(b.Contents(), a.queue);
    AgreesLength(b.Prepared(), a.area);
    AgreesSplit(b.Prepared(), a.area, |data|);
    AgreesKnown(data);
    AgreesJoin(data, Known(data), b.Prepared()[|data|..], a.area[|data|..]);
    b.Fill(data);
  }

  method RunCommit(b: Buffer, n: nat, ghost a: Abstract)
    requires Represents(b, a) && Allowed(a, Commit(n))
    modifies b, b.bytes
    ensures Represents(b, Apply(a, Commit(n))) && (b.bytes == old(b.bytes) || fresh(b.bytes))
  {
    hide IsPowerOfTwo, NextPowerOf2, Agrees, GoodCapacity;
    AgreesLength(b.Contents(), a.queue);
    AgreesLength(b.Prepared(), a.area);
    var k := Min(n, b.bytes.Length - b.prepared);
    AgreesSplit(b.Prepared(), a.area, k);
    AgreesJoin(b.Contents(), a.queue, b.Prepared()[..k], a.area[..k]);
    b.Commit(n);
  }

  method RunConsume(b: Buffer, n: nat, ghost a: Abstract)
    requires Represents(b, a) && Allowed(a, Consume(n))
    modifies b, b.bytes
    ensures Represents(b, Apply(a, Consume(n))) && (b.bytes == old(b.bytes) || fresh(b.bytes))
  {
    hide IsPowerOfTwo, NextPowerOf2, Agrees, GoodCapacity;
    AgreesLength(b.Contents(), a.queue);
    AgreesLength(b.Prepared(), a.area);
    AgreesSplit(b.Contents(), a.queue, Min(n, b.prepared - b.committed));
    b.Consume(n);
  }

  method RunReset(b: Buffer, ghost a: Abstract)
    requires Represents(b, a) && Allowed(a, Reset)
    modifies b, b.bytes
    ensures Represents(b, Apply(a, Reset)) && (b.bytes == old(b.bytes) || fresh(b.bytes))
  {
    hide IsPowerOfTwo, NextPowerOf2, Agrees, GoodCapacity;
    AgreesLength(b.Contents(), a.queue);
    AgreesLength(b.Prepared(), a.area);
    b.Reset();
    AgreesUnknown(b.Prepared());
    AgreesUnknown([]);
    assert Unknown(0) == [];
  }

  method RunOp(b: Buffer, op: Op, ghost a: Abstract)
    requires Represents(b, a) && Allowed(a, op)
    modifies b, b.bytes
    ensures Represents(b, Apply(a, op)) && (b.bytes == old(b.bytes) || fresh(b.bytes))
  {
    hide Represents, Apply, Allowed;
    match op {
      case Prepare(required) => RunPrepare(b, required, a);
      case Write(data) => RunWrite(b, data, a);
      case Commit(n) => RunCommit(b, n, a);
      case Consume(n) => RunConsume(b, n, a);
      case Reset => RunReset(b, a);
    }
  }

  lemma {:induction false} AgreesLength(s: seq<Byte>, k: Bytes)
    requires Agrees(s, k)
    ensures |s| == |k|
  {
  }

  lemma {:induction false} AgreesUnknown(s: seq<Byte>)
    ensures Agrees(s, Unknown(|s|))
  {
  }

  lemma {:induction false} AgreesKnown(s: seq<Byte>)
    ensures Agrees(s, Known(s))
  {
  }

  lemma {:induction false} AgreesSplit(s: seq<Byte>, k: Bytes, n: nat)
    requires Agrees(s, k) && n <= |k|
    ensures n <= |s| && Agrees(s[..n], k[..n]) && Agrees(s[n..], k[n..])
  {
  }

  lemma {:induction false} AgreesJoin(s: seq<Byte>, k: Bytes, t: seq<Byte>, l: Bytes)
    requires Agrees(s, k) && Agrees(t, l)
    ensures Agrees(s + t, k + l)
  {
  }

  /** The buffer is a first-in first-out queue for every sequence of prepares, writes, commits,
      consumptions and resets, in any order, whatever moves and reallocations they cause:
      every byte that was written and committed is there until it is consumed. */
  method Replay(b: Buffer, ops: seq<Op>, ghost a: Abstract)
    requires Represents(b, a) && AllAllowed(a, ops)
    modifies b, b.bytes
    ensures Represents(b, ApplyAll(a, ops))
  {
    hide Represents, Apply, Allowed;
    ghost var now := a;
    assert ops[0..] == ops;
    for i := 0 to |ops|
      invariant Represents(b, now) && (b.bytes == old(b.bytes) || fresh(b.bytes))
      invariant AllAllowed(now, ops[i..]) && ApplyAll(now, ops[i..]) == ApplyAll(a, ops)
    {
      assert ops[i..][1..] == ops[i + 1..];
      RunOp(b, ops[i], now);
      now := Apply(now, ops[i]);
    }
  }
}
