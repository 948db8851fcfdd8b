/** The walk over the data blocks of a CTA-861 extension (section 7.5 of CTA-861-G), for arbitrary bytes. */
module CtaBlocks {
  import opened Wrappers

  type Byte = x: int | 0 <= x < 256

  const BLOCK_SIZE: nat := 128
  const EXTENDED: nat := 7

  function DataEnd(e: seq<Byte>): nat
    requires |e| >= BLOCK_SIZE
  {
    if e[2] < 4 then 4 else if e[2] > BLOCK_SIZE - 1 then BLOCK_SIZE - 1 else e[2]
  }

  function Tag(header: Byte): nat { header / 32 }
  function Length(header: Byte): nat { header % 32 }

  /** A data block lies at `at`: it has a payload, and the payload ends within the data. */
  predicate IsBlock(e: seq<Byte>, at: nat)
    requires |e| >= BLOCK_SIZE
  {
    at < DataEnd(e) && Length(e[at]) > 0 && at + Length(e[at]) < DataEnd(e)
  }

  /** Following the blocks one by one from `from` arrives at `at`. */
  ghost predicate Leads(e: seq<Byte>, from: nat, at: nat)
    requires |e| >= BLOCK_SIZE
    decreases DataEnd(e) - from
  {
    from == at || (IsBlock(e, from) && Leads(e, from + Length(e[from]) + 1, at))
  }

  /** An extended data block of this kind, long enough, on the chain of blocks. */
  ghost predicate IsMatch(e: seq<Byte>, tag: nat, minLength: nat, at: nat)
    requires |e| >= BLOCK_SIZE
  {
    && IsBlock(e, at) && Leads(e, 4, at)
    && Tag(e[at]) == EXTENDED && Length(e[at]) >= minLength && e[at + 1] == tag
  }

  lemma {:induction false} LeadsOn(e: seq<Byte>, from: nat, at: nat)
    requires |e| >= BLOCK_SIZE && Leads(e, from, at) && IsBlock(e, at)
    ensures Leads(e, from, at + Length(e[at]) + 1)
    decreases DataEnd(e) - from
  {
    if from != at {
      LeadsOn(e, from + Length(e[from]) + 1, at);
    } else {
      assert Leads(e, at + Length(e[at]) + 1, at + Length(e[at]) + 1);
    }
  }

  lemma {:induction false} LeadsUp(e: seq<Byte>, from: nat, at: nat)
    requires |e| >= BLOCK_SIZE && Leads(e, from, at)
    ensures from <= at
    decreases DataEnd(e) - from
  {
    if from != at {
      LeadsUp(e, from + Length(e[from]) + 1, at);
    }
  }

  /** The chain does not branch: of two places on it, the earlier leads to the later. */
  lemma {:induction false} OneChain(e: seq<Byte>, from: nat, a: nat, b: nat)
    requires |e| >= BLOCK_SIZE && Leads(e, from, a) && Leads(e, from, b)
    ensures Leads(e, a, b) || Leads(e, b, a)
    decreases DataEnd(e) - from
  {
    if from != a && from != b {
      OneChain(e, from + Length(e[from]) + 1, a, b);
    }
  }

  /**
   Finds the first matching block on the chain, for any bytes: whatever it
   returns matches with nothing matching before it, and it fails only if nothing
   on the chain matches.
   */
  method FindDataBlock(e: seq<Byte>, tag: nat, minLength: nat) returns (found: Option<nat>)
    requires e == [] || |e| >= BLOCK_SIZE
    ensures found.Some? ==>
              && e != [] && e[0] == 2 && IsMatch(e, tag, minLength, found.value)
              && found.value + Length(e[found.value]) < BLOCK_SIZE - 1
              && forall k | 0 <= k < found.value :: !IsMatch(e, tag, minLength, k)
    ensures found.None? && e != [] && e[0] == 2 ==> forall k: nat :: !IsMatch(e, tag, minLength, k)
    ensures e == [] || e[0] != 2 ==> found.None?
  {
    if e == [] || e[0] != 2 { return None; }
    var end := DataEnd(e);
    var at := 4;
    forall k | 0 <= k < 4 ensures !IsMatch(e, tag, minLength, k) {
      NothingBefore(e, k);
    }
    while at < end
      invariant 4 <= at && Leads(e, 4, at)
      invariant forall k | 0 <= k < at :: !IsMatch(e, tag, minLength, k)
      decreases end - at
    {
      var length := Length(e[at]);
      if length == 0 || length > end - at - 1 {
        assert !IsBlock(e, at);
        break;
      }
      if Tag(e[at]) == EXTENDED && length >= minLength && e[at + 1] == tag {
        return Some(at);
      }
      LeadsOn(e, 4, at);
      forall k | at <= k < at + length + 1 ensures !IsMatch(e, tag, minLength, k) {
        if k > at && IsMatch(e, tag, minLength, k) {
          SkipsInside(e, at, k);
        }
      }
      at := at + length + 1;
    }
    assert !IsBlock(e, at);
    forall k: nat ensures !IsMatch(e, tag, minLength, k) {
      if k > at && IsMatch(e, tag, minLength, k) {
        StopsAt(e, at, k);
      }
    }
    return None;
  }

  lemma NothingBefore(e: seq<Byte>, k: nat)
    requires |e| >= BLOCK_SIZE && k < 4
    ensures !Leads(e, 4, k)
  {
    if Leads(e, 4, k) {
      LeadsUp(e, 4, k);
    }
  }

  /** Nothing on the chain lies inside a block. */
  lemma SkipsInside(e: seq<Byte>, at: nat, k: nat)
    requires |e| >= BLOCK_SIZE && Leads(e, 4, at) && Leads(e, 4, k) && IsBlock(e, at) && at < k
    ensures k >= at + Length(e[at]) + 1
  {
    OneChain(e, 4, at, k);
    if Leads(e, at, k) {
      LeadsUp(e, at + Length(e[at]) + 1, k);
    } else {
      LeadsUp(e, k, at);
    }
  }

  /** The chain ends where there is no block. */
  lemma StopsAt(e: seq<Byte>, at: nat, k: nat)
    requires |e| >= BLOCK_SIZE && Leads(e, 4, at) && Leads(e, 4, k) && !IsBlock(e, at)
    ensures k <= at
  {
    OneChain(e, 4, at, k);
    if !Leads(e, at, k) {
      LeadsUp(e, k, at);
    }
  }
}
