/** The ring buffer object, used by one thread at a time (see `Spsc` for the concurrent protocol). */
module RingBuffers {
  import opened Basics
  import opened Words
  import opened Spsc

  /** The samples between two unbounded positions, oldest first. */
  function Window(slots: seq<Sample>, taken: nat, written: nat): (s: seq<Sample>)
    requires taken <= written && (slots == [] ==> taken == written)
    ensures |s| == written - taken
  {
    seq(written - taken, i requires 0 <= i < written - taken => slots[(taken + i) % |slots|])
  }

  lemma WindowAt(slots: seq<Sample>, taken: nat, written: nat, i: nat)
    requires |slots| > 0 && taken + i < written
    ensures 0 <= (taken + i) % |slots| < |slots|
    ensures Window(slots, taken, written)[i] == slots[(taken + i) % |slots|]
  {}

  /** Storing behind a window that is not full extends it and overwrites none of it. */
  lemma WindowPush(slots: seq<Sample>, taken: nat, written: nat, x: Sample)
    requires taken <= written < taken + |slots|
    ensures Window(slots[written % |slots| := x], taken, written + 1) == Window(slots, taken, written) + [x]
  {
    var was, now := Window(slots, taken, written), Window(slots[written % |slots| := x], taken, written + 1);
    forall i | 0 <= i < |was| ensures now[i] == was[i] {
      DistinctSlots(taken + i, written, |slots|);
    }
    assert taken + (written - taken) == written;
  }

  lemma WindowPop(slots: seq<Sample>, taken: nat, written: nat, n: nat)
    requires taken + n <= written && (slots == [] ==> taken == written)
    ensures Window(slots, taken + n, written) == Window(slots, taken, written)[n..]
  {
    var now := Window(slots, taken + n, written);
    forall i | 0 <= i < |now| ensures now[i] == Window(slots, taken, written)[n + i] {
      assert taken + n + i == taken + (n + i);
    }
  }

  class RingBuffer {
    var buffer: array<Sample>
    var capacity: Word
    var mask: Word
    var writePos: Word
    var readPos: Word

    ghost var written: nat  // the positions as they would be without wrap-around
    ghost var taken: nat

    /** A request that is 0 or above 2^63 rounds to 0 and gives a buffer that never holds anything. */
    ghost predicate Valid()
      reads this, buffer
    {
      (capacity == 0 || Rounded(capacity)) && capacity == buffer.Length && mask == Sub(capacity, 1) &&
      writePos == Wrap(written) && readPos == Wrap(taken) && taken <= written <= taken + capacity
    }

    /** What has been written and not yet read, oldest first. */
    ghost function Contents(): (s: seq<Sample>)
      requires Valid()
      reads this, buffer
      ensures |s| == written - taken
    {
      Window(buffer[..], taken, written)
    }

    constructor (capacitySamples: Word)
      ensures Valid() && Contents() == [] && fresh(buffer)
      ensures if 1 <= capacitySamples <= WORD64 / 2 then LeastPowerOf2(capacity, capacitySamples) else capacity == 0
    {
      hide RoundUp, Pow2, LeastPowerOf2, Rounded;
      var c := NextPowerOf2(capacitySamples);
      if 1 <= capacitySamples <= WORD64 / 2 { RoundedUp(capacitySamples); }
      capacity := c;
      mask := Sub(c, 1);
      buffer := new Sample[c](_ => 0);
      writePos, readPos, written, taken := 0, 0, 0, 0;
    }

    lemma FillLevel()
      requires Valid()
      ensures Sub(writePos, readPos) == written - taken
    {
      if capacity > 0 { RoundedIsSmall(capacity); }
      WrappedDistance(written, taken);
    }

    lemma SlotOf(pos: nat, i: nat)
      requires Valid() && capacity > 0
      ensures And(Wrap(Wrap(pos) as nat + i), mask) == (pos + i) % capacity
    {
      var k: nat :| k <= 63 && capacity == Pow2(k);
      WrapShift(pos, i);
      MaskIgnoresWrap(pos + i, k);
    }

    method Write(samples: array<Sample>, count: Word) returns (n: Word)
      requires Valid() && count <= samples.Length && samples != buffer
      modifies this, buffer
      ensures Valid() && buffer == old(buffer) && capacity == old(capacity)
      ensures n == Min(count, capacity - |old(Contents())|)
      ensures Contents() == old(Contents()) + samples[..n]
    {
      hide Window, Rounded, Wrap;
      FillLevel();
      ghost var was := Contents();
      var avail := Sub(capacity, Sub(writePos, readPos));
      assert avail == capacity - |was|;
      hide Sub;
      n := Min(count, avail);
      var i := 0;
      while i < n
        invariant 0 <= i <= n && Valid() && unchanged(this)
        invariant Window(buffer[..], taken, written + i) == was + samples[..i]
      {
        Store(i, samples[i]);
        i := i + 1;
      }
      Publish(n);
    }

    /** Makes the next n stored samples part of the contents. */
    method Publish(n: Word)
      requires Valid() && written + n <= taken + capacity
      modifies this`writePos, this`written
      ensures Valid() && Contents() == old(Window(buffer[..], taken, written + n))
    {
      hide Window, Rounded;
      WrapShift(written, n);
      writePos := Wrap(writePos as nat + n);
      written := written + n;
    }

    /** Stores the i-th sample behind the contents, not yet published. */
    method Store(i: nat, x: Sample)
      requires Valid() && written + i < taken + capacity
      modifies buffer
      ensures Valid()
      ensures Window(buffer[..], taken, written + i + 1) == Window(old(buffer[..]), taken, written + i) + [x]
    {
      hide Window, And, Wrap, Rounded;
      ghost var before := buffer[..];
      SlotOf(written, i);
      WindowPush(before, taken, written + i, x);
      var slot := And(Wrap(writePos as nat + i), mask);
      assert slot == (written + i) % capacity;
      buffer[slot] := x;
      assert buffer[..] == before[slot := x];
    }

    method Read(samples: array<Sample>, count: Word) returns (n: Word)
      requires Valid() && count <= samples.Length && samples != buffer
      modifies this, samples
      ensures Valid() && buffer == old(buffer) && capacity == old(capacity)
      ensures n == Min(count, |old(Contents())|)
      ensures samples[..n] == old(Contents())[..n] && samples[n..] == old(samples[n..])
      ensures Contents() == old(Contents())[n..]
    {
      hide Window, Rounded, Wrap, Sub;
      FillLevel();
      var avail := Sub(writePos, readPos);
      n := Min(count, avail);
      CopyOut(samples, n);
      Release(n);
    }

    /** The loop that copies the first n samples of the contents. */
    method CopyOut(samples: array<Sample>, n: Word)
      requires Valid() && n <= written - taken && n <= samples.Length && samples != buffer
      modifies samples
      ensures samples[..n] == Contents()[..n] && samples[n..] == old(samples[n..])
    {
      hide Window, Rounded, Wrap, Sub;
      ghost var was := Contents();
      var i := 0;
      while i < n
        invariant 0 <= i <= n && Valid() && Contents() == was
        invariant samples[..i] == was[..i] && samples[n..] == old(samples[n..])
      {
        var x := Load(i);
        samples[i] := x;
        i := i + 1;
        assert was[..i] == was[..i - 1] + [x];
      }
    }

    /** Gives the first n samples of the contents back to the writer. */
    method Release(n: Word)
      requires Valid() && n <= written - taken
      modifies this`readPos, this`taken
      ensures Valid() && Contents() == old(Contents())[n..]
    {
      WindowPop(buffer[..], taken, written, n);
      hide Window, Rounded;
      WrapShift(taken, n);
      readPos := Wrap(readPos as nat + n);
      taken := taken + n;
    }

    /** The i-th sample of the contents. */
    method Load(i: nat) returns (x: Sample)
      requires Valid() && i < written - taken
      ensures x == Contents()[i]
    {
      hide And, Wrap, Rounded, Window;
      SlotOf(taken, i);
      WindowAt(buffer[..], taken, written, i);
      var slot := And(Wrap(readPos as nat + i), mask);
      assert slot == (taken + i) % capacity;
      x := buffer[slot];
    }

    method Available() returns (n: Word)
      requires Valid()
      ensures n == |Contents()|
    {
      FillLevel();
      n := Sub(writePos, readPos);
    }

    method Space() returns (n: Word)
      requires Valid()
      ensures n == capacity - |Contents()|
    {
      var a := Available();
      n := Sub(capacity, a);
    }

    method Reset()
      requires Valid()
      modifies this`writePos, this`readPos, this`written, this`taken
      ensures Valid() && Contents() == []
    {
      writePos, readPos, written, taken := 0, 0, 0, 0;
    }
  }

  /** The capacities the constructor accepts round up to a power of two no larger than 2^63. */
  lemma RoundedUp(v: Word)
    requires 1 <= v <= WORD64 / 2
    ensures Rounded(RoundUp(v)) && RoundUp(v) >= 1
  {
    hide Smear, Length, LeastPowerOf2;
    var x: Word := v - 1;
    var half := 63;
    SmearedValue(x);
    HalfWord(x);
    WordIsPow2();
    LengthOfWord(x, half);
  }
}
