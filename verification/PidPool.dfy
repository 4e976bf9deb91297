/** The pid pool of thread/thread.c: a bitmap of 1024 pids from 1 on, which refines the set of pids of the process tree. */
module PidPools {
  import opened Bytes
  import opened Wrappers
  import opened Bitmaps
  import opened ProcessTree

  ghost predicate PidTaken(bits: seq<byte>, p: int) {
    1 <= p <= 8 * |bits| && BitSet(bits, p - 1)
  }

  /** The pids whose bits are set. */
  ghost function TakenPids(bits: seq<byte>): set<int> {
    set p: int | 1 <= p <= 8 * |bits| && PidTaken(bits, p)
  }

  lemma PidUpdated(before: seq<byte>, after: seq<byte>, idx: nat, value: bool)
    requires BitUpdated(before, after, idx, value)
    ensures TakenPids(after) == if value then TakenPids(before) + {idx + 1} else TakenPids(before) - {idx + 1}
  {
  }

  /** The first clear bit is the lowest free pid. */
  lemma {:induction false} FirstClearIsFreePid(bits: seq<byte>, r: nat, p: nat)
    requires 8 * |bits| == MAX_PIDS && p <= r < MAX_PIDS && !BitSet(bits, r)
    requires forall k: nat :: k < r ==> BitSet(bits, k)
    ensures FreePid(TakenPids(bits), p + 1) == r + 1
    decreases r - p
  {
    if p < r {
      assert PidTaken(bits, p + 1);
      FirstClearIsFreePid(bits, r, p + 1);
    }
  }

  lemma AllTaken(bits: seq<byte>)
    requires 8 * |bits| == MAX_PIDS
    ensures Full(bits) <==> AllPids(TakenPids(bits))
  {
    hide BitSet;
    if Full(bits) {
      assert forall p :: 1 <= p <= MAX_PIDS ==> PidTaken(bits, p);
    } else {
      var k: nat :| k < 8 * |bits| && !BitSet(bits, k);
      assert !PidTaken(bits, k + 1);
      assert k + 1 !in TakenPids(bits);
    }
  }

  ghost predicate AllPids(pids: set<int>) {
    forall p :: 1 <= p <= MAX_PIDS ==> p in pids
  }

  class PidPool {
    const pidStart: nat := 1
    const pidBitmap: Bitmap

    /** `pid_pool_init` */
    constructor ()
      ensures Valid() && Used() == {} && fresh(pidBitmap.bits)
    {
      pidBitmap := new Bitmap(128);
      new;
      assert forall k: nat :: k < 1024 ==> !BitSet(pidBitmap.bits[..], k);
    }

    ghost predicate Valid() {
      8 * pidBitmap.bits.Length == MAX_PIDS
    }

    ghost function Used(): set<int>
      reads pidBitmap.bits
    {
      TakenPids(pidBitmap.bits[..])
    }

    /** `allocate_pid`; without a free pid `bitmap_scan` stops the kernel. */
    method AllocatePid() returns (pid: Option<int>)
      requires Valid()
      modifies pidBitmap.bits
      ensures pid.None? <==> AllPids(old(Used()))
      ensures pid.Some? ==>
        pid.value == FreePid(old(Used()), 1) && pid.value !in old(Used()) && Used() == old(Used()) + {pid.value}
    {
      hide BitSet, AllPids;
      ghost var before := pidBitmap.bits[..];
      var scanned := pidBitmap.Scan(1);
      assert pidBitmap.bits[..] == before;
      OneIsRun(before);
      AllTaken(before);
      if !scanned.StartAt? {
        return None;
      }
      var bitIdx := scanned.start;
      assert !BitSet(before, bitIdx);
      forall k: nat | k < bitIdx
        ensures BitSet(before, k)
      {
        assert !RunFree(before, k, 1);
      }
      FirstClearIsFreePid(before, bitIdx, 0);
      pidBitmap.Set(bitIdx, true);
      PidUpdated(before, pidBitmap.bits[..], bitIdx, true);
      return Some(pidStart + bitIdx);
    }

    method ReleasePid(pid: int)
      requires Valid() && 1 <= pid <= MAX_PIDS
      modifies pidBitmap.bits
      ensures Used() == old(Used()) - {pid}
    {
      ghost var before := pidBitmap.bits[..];
      var bitIdx := pid - pidStart;
      pidBitmap.Set(bitIdx, false);
      PidUpdated(before, pidBitmap.bits[..], bitIdx, false);
    }
  }
}
