/** A read-only, seekable byte stream over a borrowed block of bytes
    (Utilities::ReadOnlyStreamBuffer). The stream owns only its cursor; the
    bytes belong to the caller and are never written. */
module StreamBuffer {

  /** The origin of a relative seek (std::ios_base::seekdir). A seekdir value
      other than beg, cur and end is possible in the type and leaves the
      cursor where it is. */
  datatype SeekDir = Beg | Cur | End | OtherDir

  function Min(a: int, b: int): (r: int)
    ensures r <= a && r <= b
    ensures r == a || r == b
  {
    if b < a then b else a
  }

  /** `x` forced into the interval [lo, hi]. */
  function Clamp(x: int, lo: int, hi: int): (r: int)
    requires lo <= hi
    ensures lo <= r <= hi
    ensures lo <= x <= hi ==> r == x
    ensures x < lo ==> r == lo
    ensures hi < x ==> r == hi
  {
    if x < lo then lo else if hi < x then hi else x
  }

  /** The number of bytes a bulk read of `count` bytes delivers with the
      cursor at `pos` in a block of `size` bytes. */
  function ReadCount(pos: int, size: int, count: int): (n: int)
    ensures 0 <= count && pos <= size ==> 0 <= n
    ensures n <= count && n <= size - pos
    ensures n == count || n == size - pos
  {
    Min(count, size - pos)
  }

  /** The absolute position a relative seek is measured from. */
  function Origin(dir: SeekDir, pos: int, size: int): int
    requires !dir.OtherDir?
  {
    match dir
    case Beg => 0
    case Cur => pos
    case End => size
  }

  /** Reference definition of a relative seek: the target measured from the
      origin and clamped into [0, size]; an unknown origin keeps the cursor. */
  function SeekOffResult(pos: int, size: int, off: int, dir: SeekDir): (r: int)
    requires 0 <= size
    ensures 0 <= pos <= size ==> 0 <= r <= size
    ensures dir.OtherDir? ==> r == pos
    ensures dir == Beg && off < 0 ==> r == 0
    ensures dir == Beg && size < off ==> r == size
    ensures dir == Beg && 0 <= off <= size ==> r == off
    ensures dir == End && 0 < off ==> r == size
    ensures dir == End && off < -size ==> r == 0
    ensures dir == End && -size <= off <= 0 ==> r == size + off
    ensures dir == Cur && size - pos < off ==> r == size
    ensures dir == Cur && pos + off < 0 ==> r == 0
    ensures dir == Cur && 0 <= pos + off <= size ==> r == pos + off
  {
    if dir.OtherDir? then pos else Clamp(Origin(dir, pos, size) + off, 0, size)
  }

  /** An absolute seek as written: bounded above by size, not below by 0. */
  function SeekPosResult(p: int, size: int): (r: int)
    ensures r <= size
    ensures p <= size ==> r == p
    ensures size <= p ==> r == size
    ensures 0 <= p && 0 <= size ==> 0 <= r
  {
    Min(p, size)
  }

  /** Corrected absolute seek: clamped into [0, size] at both ends. It agrees
      with SeekPosResult on every non-negative position. */
  function ClampedSeekPos(p: int, size: int): (r: int)
    requires 0 <= size
    ensures 0 <= r <= size
    ensures 0 <= p ==> r == SeekPosResult(p, size)
    ensures p < 0 ==> r == 0
  {
    Clamp(p, 0, size)
  }

  /** The cursor after a relative seek as the source computes it in 64-bit
      arithmetic: `-off` wraps around for the smallest 64-bit offset. */
  const MinInt64: int := -0x8000_0000_0000_0000
  const MaxInt64: int := 0x7FFF_FFFF_FFFF_FFFF

  predicate IsInt64(x: int) {
    MinInt64 <= x <= MaxInt64
  }

  /** Two's-complement negation of a 64-bit integer. */
  function Neg64(x: int): (r: int)
    requires IsInt64(x)
    ensures IsInt64(r)
    ensures x != MinInt64 ==> r == -x
    ensures x == MinInt64 ==> r == x
  {
    if x == MinInt64 then x else -x
  }

  function SeekOffAsWritten64(pos: int, size: int, off: int, dir: SeekDir): (r: int)
    requires 0 <= pos <= size <= MaxInt64 && IsInt64(off)
    ensures r <= size
    ensures off != MinInt64 || dir == Beg || dir == OtherDir ==> 0 <= r
    ensures dir == OtherDir ==> r == pos
  {
    match dir
    case Cur =>
      if off > size - pos then size
      else if Neg64(off) > pos then 0
      else pos + off
    case End =>
      if off > 0 then size
      else if Neg64(off) > size then 0
      else size + off
    case Beg =>
      if off < 0 then 0
      else if off > size then size
      else off
    case OtherDir => pos
  }

  /** Away from the smallest 64-bit offset the source's seek is the clamp. */
  lemma SeekOff64AgreesWithClamp(pos: int, size: int, off: int, dir: SeekDir)
    requires 0 <= pos <= size <= MaxInt64 && IsInt64(off) && off != MinInt64
    ensures SeekOffAsWritten64(pos, size, off, dir) == SeekOffResult(pos, size, off, dir)
  {
  }

  /** With the smallest 64-bit offset, a relative seek from the current
      position or from the end leaves the cursor negative. */
  lemma SeekOff64MinOffsetEscapes(pos: int, size: int, dir: SeekDir)
    requires 0 <= pos <= size <= MaxInt64
    requires dir == Cur || dir == End
    ensures SeekOffAsWritten64(pos, size, MinInt64, dir) < 0
    ensures SeekOffResult(pos, size, MinInt64, dir) == 0
  {
  }

  /** A negative absolute position drives the cursor below 0 as written; the
      corrected seek keeps it at 0. */
  lemma SeekPosNegativeEscapes(size: int)
    requires 0 <= size
    ensures SeekPosResult(-1, size) == -1
    ensures ClampedSeekPos(-1, size) == 0
  {
  }

  /** From the cursor -1 that a negative absolute seek leaves, a read of
      `count >= 1` bytes delivers one byte more than the block holds
      after it, starting one byte before the block. */
  lemma ReadFromNegativeCursor(size: int, count: int)
    requires 0 <= size && 1 <= count
    ensures ReadCount(-1, size, count) == Min(count, size + 1)
    ensures 1 <= ReadCount(-1, size, count)
    ensures count > size ==> ReadCount(-1, size, count) == size + 1
  {
  }

  /** One operation on the stream: a bulk read, a relative seek or an absolute seek. */
  datatype Op = Read(count: int) | Seek(off: int, dir: SeekDir) | SeekAbs(p: int)

  /** The cursor after one operation. */
  function Step(pos: int, size: int, op: Op): (r: int)
    requires 0 <= size
    ensures 0 <= pos <= size && WellFormed(op) ==> 0 <= r <= size
    ensures op.Read? && pos <= size && 0 <= op.count ==> pos <= r <= size
    ensures op.Read? && pos == size && 0 <= op.count ==> r == size
  {
    match op
    case Read(count) => pos + ReadCount(pos, size, count)
    case Seek(off, dir) => SeekOffResult(pos, size, off, dir)
    case SeekAbs(p) => SeekPosResult(p, size)
  }

  /** The cursor after a sequence of operations. */
  function Run(pos: int, size: int, ops: seq<Op>): int
    requires 0 <= size
    decreases |ops|
  {
    if ops == [] then pos else Run(Step(pos, size, ops[0]), size, ops[1..])
  }

  /** Operations compose: running `ops` and then `op` is running `ops + [op]`. */
  lemma {:induction false} RunAppend(pos: int, size: int, ops: seq<Op>, op: Op)
    requires 0 <= size
    ensures Run(pos, size, ops + [op]) == Step(Run(pos, size, ops), size, op)
    decreases |ops|
  {
    if ops == [] {
      assert [] + [op] == [op];
      assert [op][1..] == [];
    } else {
      assert (ops + [op])[0] == ops[0];
      assert (ops + [op])[1..] == ops[1..] + [op];
      RunAppend(Step(pos, size, ops[0]), size, ops[1..], op);
    }
  }

  /** An operation the source's callers may issue: reads ask for a
      non-negative count, absolute seeks name a non-negative position. */
  predicate WellFormed(op: Op) {
    match op
    case Read(count) => 0 <= count
    case Seek(_, _) => true
    case SeekAbs(p) => 0 <= p
  }

  /** Bounds invariant: any sequence of well-formed operations keeps the
      cursor in [0, size]. */
  lemma {:induction false} RunStaysInBounds(pos: int, size: int, ops: seq<Op>)
    requires 0 <= pos <= size
    requires forall k :: 0 <= k < |ops| ==> WellFormed(ops[k])
    ensures 0 <= Run(pos, size, ops) <= size
    decreases |ops|
  {
    if ops != [] {
      var next := Step(pos, size, ops[0]);
      assert WellFormed(ops[0]);
      assert 0 <= next <= size;
      forall k | 0 <= k < |ops[1..]|
        ensures WellFormed(ops[1..][k])
      {
        assert ops[1..][k] == ops[k + 1];
      }
      RunStaysInBounds(next, size, ops[1..]);
    }
  }

  /** Read exhaustion: at the end of the block, any number of reads deliver
      nothing and leave the cursor at the end. */
  lemma {:induction false} ReadsAtEndStayAtEnd(size: int, ops: seq<Op>)
    requires 0 <= size
    requires forall k :: 0 <= k < |ops| ==> ops[k].Read? && 0 <= ops[k].count
    ensures Run(size, size, ops) == size
    ensures forall k :: 0 <= k < |ops| ==> ReadCount(size, size, ops[k].count) == 0
    decreases |ops|
  {
    if ops != [] {
      assert Step(size, size, ops[0]) == size;
      forall k | 0 <= k < |ops[1..]|
        ensures ops[1..][k].Read? && 0 <= ops[1..][k].count
      {
        assert ops[1..][k] == ops[k + 1];
      }
      ReadsAtEndStayAtEnd(size, ops[1..]);
    }
  }

  /** The stream over `size` bytes of the borrowed block `data`. */
  class ReadOnlyStreamBuffer {
    const data: array<char>
    const size: int
    var pos: int

    /** The cursor lies within the block and the block holds `size` bytes. */
    ghost predicate Valid()
      reads this
    {
      0 <= pos <= size <= data.Length
    }

    /** The bytes not yet read. */
    ghost function Unread(): seq<char>
      reads this, data
      requires Valid()
    {
      data[pos..size]
    }

    /** Borrows the first `size` bytes of `data`: the cursor starts at 0 and
        the block is neither copied nor altered. */
    constructor (data: array<char>, size: int)
      requires 0 <= size <= data.Length
      ensures Valid()
      ensures this.data == data && this.size == size && pos == 0
      ensures Unread() == data[..size]
    {
      this.data := data;
      this.size := size;
      pos := 0;
    }

    /** Bulk read (xsgetn): copies min(count, size - pos) bytes from the
        cursor into `dest` and advances the cursor past them. */
    method XsGetN(dest: array<char>, count: int) returns (n: int)
      requires Valid()
      requires dest != data
      requires 0 <= count <= dest.Length
      modifies this, dest
      ensures Valid()
      ensures n == ReadCount(old(pos), size, count)
      ensures pos == old(pos) + n
      ensures dest[..n] == old(Unread())[..n]
      ensures dest[n..] == old(dest[n..])
      ensures Unread() == old(Unread())[n..]
      ensures data[..] == old(data[..])
    {
      ghost var unread := Unread();
      n := Min(count, size - pos);
      var i := 0;
      while i < n
        invariant 0 <= i <= n && pos == old(pos) && n <= size - pos
        invariant dest[..i] == data[pos..pos + i]
        invariant dest[n..] == old(dest[n..])
      {
        dest[i] := data[pos + i];
        i := i + 1;
      }
      assert dest[..n] == data[pos..pos + n];
      assert unread[..n] == data[pos..pos + n];
      pos := pos + n;
    }

    /** Relative seek (seekoff): moves the cursor relative to the start, the
        current position or the end, clamped into [0, size], and returns it. */
    method SeekOff(off: int, dir: SeekDir) returns (r: int)
      requires Valid()
      modifies this
      ensures Valid()
      ensures pos == SeekOffResult(old(pos), size, off, dir)
      ensures r == pos
    {
      if dir == Cur {
        if off > size - pos {
          pos := size;
        } else if -off > pos {
          pos := 0;
        } else {
          pos := pos + off;
        }
      } else if dir == End {
        if off > 0 {
          pos := size;
        } else if -off > size {
          pos := 0;
        } else {
          pos := size + off;
        }
      } else if dir == Beg {
        if off < 0 {
          pos := 0;
        } else if off > size {
          pos := size;
        } else {
          pos := off;
        }
      }
      r := pos;
    }

    /** Absolute seek (seekpos): moves the cursor to min(p, size) and
        returns it; the stream stays valid only for a non-negative p. */
    method SeekPos(p: int) returns (r: int)
      requires Valid()
      modifies this
      ensures pos == SeekPosResult(p, size)
      ensures r == pos
      ensures 0 <= p ==> Valid()
    {
      pos := Min(p, size);
      r := pos;
    }
  }
}
