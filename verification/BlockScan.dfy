/** Scanning a buffer sixteen bytes at a time with a bit mask, against scanning it byte by byte. */
module BlockScan {

  const BLOCK: nat := 16

  /** The first position from `p` on at which `stop` holds, or the end of the buffer. */
  function FirstStop(buffer: seq<char>, p: nat, stop: char -> bool): (r: nat)
    requires p <= |buffer|
    ensures p <= r <= |buffer| && (r < |buffer| ==> stop(buffer[r]))
    ensures forall i :: p <= i < r ==> !stop(buffer[i])
    decreases |buffer| - p
  {
    if p < |buffer| && !stop(buffer[p]) then FirstStop(buffer, p + 1, stop) else p
  }

  /** Nothing but the two properties of its contract determines `FirstStop`. */
  lemma {:induction false} FirstStopIs(buffer: seq<char>, p: nat, stop: char -> bool, r: nat)
    requires p <= r <= |buffer| && (r < |buffer| ==> stop(buffer[r]))
    requires forall i :: p <= i < r ==> !stop(buffer[i])
    ensures FirstStop(buffer, p, stop) == r
  {
  }

  // ----- masks

  /** One bit per byte of a block, the lowest for the first byte. */
  function MoveMask(bits: seq<bool>): nat {
    if bits == [] then 0 else (if bits[0] then 1 else 0) + 2 * MoveMask(bits[1..])
  }

  function Ones(n: nat): nat {
    if n == 0 then 0 else 1 + 2 * Ones(n - 1)
  }

  lemma {:induction false} MaskBounds(bits: seq<bool>)
    ensures MoveMask(bits) <= Ones(|bits|)
    ensures MoveMask(bits) == 0 <==> forall i :: 0 <= i < |bits| ==> !bits[i]
    ensures MoveMask(bits) == Ones(|bits|) <==> forall i :: 0 <= i < |bits| ==> bits[i]
  {
    if bits != [] {
      MaskBounds(bits[1..]);
      assert (forall i :: 0 <= i < |bits| ==> !bits[i]) <==> !bits[0] && forall i :: 0 <= i < |bits[1..]| ==> !bits[1..][i] by {
        assert forall i :: 0 < i < |bits| ==> bits[i] == bits[1..][i - 1];
      }
      assert (forall i :: 0 <= i < |bits| ==> bits[i]) <==> bits[0] && forall i :: 0 <= i < |bits[1..]| ==> bits[1..][i] by {
        assert forall i :: 0 < i < |bits| ==> bits[i] == bits[1..][i - 1];
      }
    }
  }

  lemma {:induction false} Ones16()
    ensures Ones(BLOCK) == 0xFFFF
  {
    assert Ones(8) == 255;
  }

  lemma {:induction false} MaskShift(bits: seq<bool>, k: nat)
    requires k < |bits|
    ensures MoveMask(bits[k..]) % 2 == (if bits[k] then 1 else 0) && MoveMask(bits[k..]) / 2 == MoveMask(bits[k + 1..])
  {
    assert bits[k..][1..] == bits[k + 1..];
    assert MoveMask(bits[k..]) == (if bits[k] then 1 else 0) + 2 * MoveMask(bits[k + 1..]);
    hide MoveMask;
    LowestBit(if bits[k] then 1 else 0, MoveMask(bits[k + 1..]));
  }

  lemma {:induction false} LowestBit(b: nat, m: nat)
    requires b < 2
    ensures (b + 2 * m) % 2 == b && (b + 2 * m) / 2 == m
  {
  }

  /** No byte in the range satisfies `stop`. */
  predicate Clear(buffer: seq<char>, a: nat, b: nat, stop: char -> bool)
    requires b <= |buffer|
  {
    forall i :: a <= i < b ==> !stop(buffer[i])
  }

  /** The comparison of a block with a byte set. */
  function Compare(buffer: seq<char>, p: nat, match_: char -> bool): (bits: seq<bool>)
    requires p + BLOCK <= |buffer|
    ensures |bits| == BLOCK && forall i :: 0 <= i < BLOCK ==> bits[i] == match_(buffer[p + i])
  {
    seq(BLOCK, i requires 0 <= i < BLOCK => match_(buffer[p + i]))
  }

  /** Bytes of a block whose bits are not `wanted` can be passed. */
  lemma {:induction false} ClearMore(buffer: seq<char>, a: nat, p: nat, k: nat, bits: seq<bool>, wanted: bool, stop: char -> bool)
    requires a <= p && p + |bits| <= |buffer| && k <= |bits| && Clear(buffer, a, p, stop)
    requires forall i :: 0 <= i < |bits| ==> (bits[i] == wanted <==> stop(buffer[p + i]))
    requires forall i :: 0 <= i < k ==> bits[i] != wanted
    ensures Clear(buffer, a, p + k, stop)
    ensures k < |bits| && bits[k] == wanted ==> stop(buffer[p + k])
  {
    forall i | a <= i < p + k ensures !stop(buffer[i]) {
      if i >= p {
        assert bits[i - p] != wanted;
      }
    }
  }

  lemma {:induction false} Found(buffer: seq<char>, a: nat, r: nat, stop: char -> bool)
    requires a <= r <= |buffer| && Clear(buffer, a, r, stop) && (r < |buffer| ==> stop(buffer[r]))
    ensures FirstStop(buffer, a, stop) == r
  {
    FirstStopIs(buffer, a, stop, r);
  }

  // ----- scanners

  /** Shifts a mask until its lowest bit is `wanted`. */
  method ShiftUntil(bits: seq<bool>, wanted: bool) returns (k: nat)
    requires exists i :: 0 <= i < |bits| && bits[i] == wanted
    ensures k < |bits| && bits[k] == wanted && forall i :: 0 <= i < k ==> bits[i] != wanted
  {
    k := 0;
    var mask := MoveMask(bits);
    assert bits[0..] == bits;
    ghost var limit :| 0 <= limit < |bits| && bits[limit] == wanted;
    MaskShift(bits, 0);
    while mask % 2 != (if wanted then 1 else 0)
      invariant 0 <= k <= limit && mask == MoveMask(bits[k..])
      invariant forall i :: 0 <= i < k ==> bits[i] != wanted
      invariant mask % 2 == (if bits[k] then 1 else 0)
      decreases limit - k
    {
      MaskShift(bits, k);
      mask, k := mask / 2, k + 1;
      MaskShift(bits, k);
    }
  }

  /** The byte set of a search for any of several bytes. */
  function AnyOf(needles: seq<char>): (f: char -> bool)
    ensures forall c :: f(c) <==> c in needles
  {
    c => c in needles
  }

  method ScalarFind(buffer: seq<char>, start: nat, needles: seq<char>) returns (p: nat)
    requires start <= |buffer|
    ensures p == FirstStop(buffer, start, AnyOf(needles))
  {
    p := start;
    while p < |buffer| && buffer[p] !in needles
      invariant start <= p <= |buffer| && Clear(buffer, start, p, AnyOf(needles))
    {
      p := p + 1;
    }
    Found(buffer, start, p, AnyOf(needles));
  }

  method BlockFind(buffer: seq<char>, start: nat, needles: seq<char>) returns (p: nat)
    requires start <= |buffer|
    ensures p == FirstStop(buffer, start, AnyOf(needles))
  {
    hide MoveMask, FirstStop, Clear, AnyOf, Ones;
    ghost var stop := AnyOf(needles);
    p := start;
    assert Clear(buffer, start, p, stop) by { ClearNone(buffer, start, stop); }
    while |buffer| - p >= BLOCK
      invariant start <= p <= |buffer| && Clear(buffer, start, p, stop)
    {
      var bits := Compare(buffer, p, AnyOf(needles));
      var mask := MoveMask(bits);
      MaskBounds(bits);
      if mask == 0 {
        ClearMore(buffer, start, p, BLOCK, bits, true, stop);
        p := p + BLOCK;
        continue;
      }
      var k := ShiftUntil(bits, true);
      ClearMore(buffer, start, p, k, bits, true, stop);
      Found(buffer, start, p + k, stop);
      return p + k;
    }
    var rest := ScalarFind(buffer, p, needles);
    ClearJoin(buffer, start, p, rest, stop);
    Found(buffer, start, rest, stop);
    p := rest;
  }

  lemma {:induction false} ClearNone(buffer: seq<char>, a: nat, stop: char -> bool)
    requires a <= |buffer|
    ensures Clear(buffer, a, a, stop)
  {
  }

  lemma {:induction false} ClearJoin(buffer: seq<char>, a: nat, p: nat, r: nat, stop: char -> bool)
    requires a <= p <= |buffer| && Clear(buffer, a, p, stop) && r == FirstStop(buffer, p, stop)
    ensures r <= |buffer| && Clear(buffer, a, r, stop) && (r < |buffer| ==> stop(buffer[r]))
  {
    forall i | a <= i < r ensures !stop(buffer[i]) {
    }
  }

  predicate Blank(c: char) {
    c == ' ' || c == '\t'
  }

  method ScalarSkip(buffer: seq<char>, start: nat) returns (p: nat)
    requires start <= |buffer|
    ensures p == FirstStop(buffer, start, c => !Blank(c))
  {
    p := start;
    while p < |buffer| && Blank(buffer[p])
      invariant start <= p <= |buffer| && Clear(buffer, start, p, c => !Blank(c))
    {
      p := p + 1;
    }
    Found(buffer, start, p, c => !Blank(c));
  }

  method BlockSkip(buffer: seq<char>, start: nat) returns (p: nat)
    requires start <= |buffer|
    ensures p == FirstStop(buffer, start, c => !Blank(c))
  {
    hide MoveMask, FirstStop, Clear, Blank, Ones;
    ghost var stop := c => !Blank(c);
    p := start;
    assert Clear(buffer, start, p, stop) by { ClearNone(buffer, start, stop); }
    while |buffer| - p >= BLOCK
      invariant start <= p <= |buffer| && Clear(buffer, start, p, stop)
    {
      var bits := Compare(buffer, p, Blank);
      var mask := MoveMask(bits);
      MaskBounds(bits);
      Ones16();
      if mask == 0xFFFF {
        ClearMore(buffer, start, p, BLOCK, bits, false, stop);
        p := p + BLOCK;
        continue;
      }
      var k := ShiftUntil(bits, false);
      ClearMore(buffer, start, p, k, bits, false, stop);
      Found(buffer, start, p + k, stop);
      return p + k;
    }
    var rest := ScalarSkip(buffer, p);
    ClearJoin(buffer, start, p, rest, stop);
    Found(buffer, start, rest, stop);
    p := rest;
  }
}
