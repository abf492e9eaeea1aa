/** Allocation of 32-bit request sequence numbers that wrap around and skip the ones in use. */
module SequenceNumbers {
  import opened Netlink

  const WRAP: nat := 0x1_0000_0000

  function Succ(q: U32): U32 { if q + 1 == WRAP then 0 else q + 1 }

  /** The number reached after `d` wrapping increments. */
  function Ahead(q: U32, d: nat): U32
    requires d < WRAP
  {
    if q + d < WRAP then q + d else q + d - WRAP
  }

  /** The first number from `start` on, cyclically, that is not in `used`. */
  function FirstFree(used: set<U32>, start: U32): U32
    decreases used
  {
    if start in used then FirstFree(used - {start}, Succ(start)) else start
  }

  /** How many increments that takes. */
  function Skips(used: set<U32>, start: U32): (d: nat)
    ensures d <= |used|
    decreases used
  {
    if start in used then 1 + Skips(used - {start}, Succ(start)) else 0
  }

  /** Pigeonhole: with fewer than 2^32 numbers in use the search ends, within as many increments as
      there are numbers in use, at the first number that is free. */
  lemma {:induction false} FirstFreeIsFirst(used: set<U32>, start: U32)
    requires |used| < WRAP
    ensures FirstFree(used, start) == Ahead(start, Skips(used, start))
    ensures FirstFree(used, start) !in used
    ensures forall e :: 0 <= e < Skips(used, start) ==> Ahead(start, e) in used
    decreases used
  {
    if start in used {
      FirstFreeIsFirst(used - {start}, Succ(start));
      var d := Skips(used - {start}, Succ(start));
      forall e | 0 <= e < 1 + d ensures Ahead(start, e) in used {
        if e > 0 {
          assert Ahead(start, e) == Ahead(Succ(start), e - 1);
        }
      }
      assert Ahead(Succ(start), d) == Ahead(start, 1 + d);
      assert 1 + d <= |used| < WRAP;
      assert Ahead(start, 1 + d) != start;
    }
  }

  /** The search loop of a request, on the map it searches. */
  method Allocate<T>(handlers: map<U32, T>, nextseq: U32) returns (q: U32, skipped: nat)
    requires |handlers.Keys| < WRAP
    ensures q == FirstFree(handlers.Keys, nextseq) && q !in handlers
    ensures skipped == Skips(handlers.Keys, nextseq) <= |handlers.Keys|
  {
    q, skipped := nextseq, 0;
    FirstFreeIsFirst(handlers.Keys, nextseq);
    while q in handlers
      invariant skipped <= Skips(handlers.Keys, nextseq)
      invariant q == Ahead(nextseq, skipped)
      decreases Skips(handlers.Keys, nextseq) - skipped
    {
      q := Succ(q);
      skipped := skipped + 1;
    }
  }
}
