/** Tokens and the admission of tokens into scalar storage: a numeric token is stored only
when the target holds exactly that number. */
module CbindScalar {
  import opened Basics

  datatype Status =
    | Ok
    | InvalidContext
    | InvalidShape
    | DestinationNotEmpty
    | TokenMismatch
    | ValueOutOfRange
    | UnknownField
    | DuplicateField
    | MissingField
    | UnexpectedEnd
    | LimitExceeded
    | Unsupported
    | SourceError
    | TargetError

  /** The widths of integer storage. */
  type Width = bits: nat | bits == 8 || bits == 16 || bits == 32 || bits == 64 witness 8

  /** A binary floating value; infinities and NaNs are only known to be there. */
  datatype Floating = Finite(r: real) | NonFinite(bits: nat)

  datatype Token =
    | NullToken
    | BoolToken(flag: bool)
    | SintToken(sint: Int64)
    | UintToken(uint: Uint64)
    | FloatToken(floating: Floating)
    | StringToken(text: string, stable: bool)
    | BytesToken(bytes: string, stable: bool)
    | ArrayBegin
    | ArrayEnd
    | MapBegin
    | MapEnd

  const INT64_MIN: int := -0x8000_0000_0000_0000
  const INT64_MAX: int := 0x7FFF_FFFF_FFFF_FFFF
  const UINT64_MAX: nat := 0xFFFF_FFFF_FFFF_FFFF

  type Int64 = n: int | INT64_MIN <= n <= INT64_MAX

  type Uint64 = n: nat | n <= UINT64_MAX

  // ----- powers of two

  function Pow2(n: nat): (p: nat)
    ensures p > 0
  {
    if n == 0 then 1 else 2 * Pow2(n - 1)
  }

  lemma {:induction false} Pow2Monotone(a: nat, b: nat)
    requires a <= b
    ensures Pow2(a) <= Pow2(b)
    decreases b
  {
    if a < b {
      Pow2Monotone(a, b - 1);
    }
  }

  lemma {:induction false} Pow2Add(a: nat, b: nat)
    ensures Pow2(a + b) == Pow2(a) * Pow2(b)
  {
    if a > 0 {
      Pow2Add(a - 1, b);
      calc {
        Pow2(a + b);
        2 * Pow2(a - 1 + b);
        2 * (Pow2(a - 1) * Pow2(b));
        (2 * Pow2(a - 1)) * Pow2(b);
        Pow2(a) * Pow2(b);
      }
    }
  }

  lemma {:induction false} Pow2Values()
    ensures Pow2(8) == 0x100 && Pow2(16) == 0x1_0000 && Pow2(32) == 0x1_0000_0000
    ensures Pow2(63) == 0x8000_0000_0000_0000 && Pow2(64) == 0x1_0000_0000_0000_0000
  {
    assert Pow2(4) == 16;
    Pow2Add(4, 4);
    Pow2Add(8, 8);
    Pow2Add(16, 16);
    Pow2Add(32, 32);
    assert Pow2(64) == 2 * Pow2(63);
  }

  // ----- integers

  function SignedMin(bits: nat): int
    requires 1 <= bits <= 64
  {
    if bits == 64 then INT64_MIN else 0 - Pow2(bits - 1)
  }

  function SignedMax(bits: nat): int
    requires 1 <= bits <= 64
  {
    if bits == 64 then INT64_MAX else Pow2(bits - 1) - 1
  }

  function UnsignedMax(bits: nat): nat
    requires 1 <= bits <= 64
  {
    if bits == 64 then UINT64_MAX else Pow2(bits) - 1
  }

  predicate Integral(f: Floating) {
    f.Finite? && f.r == f.r.Floor as real
  }

  predicate InSignedWidth(f: Floating, bits: nat)
    requires bits > 0
  {
    Integral(f) && -(Pow2(bits - 1) as real) <= f.r < Pow2(bits - 1) as real
  }

  predicate InUnsignedWidth(f: Floating, bits: nat) {
    Integral(f) && 0.0 <= f.r < Pow2(bits) as real
  }

  datatype Admission<+T> = Admitted(value: T) | Refused(status: Status)

  function AdmitSigned(bits: nat, t: Token): (r: Admission<int>)
    requires 1 <= bits <= 64
    ensures r.Refused? ==> !r.status.Ok?
  {
    match t
    case SintToken(n) => if n < SignedMin(bits) || n > SignedMax(bits) then Refused(ValueOutOfRange) else Admitted(n)
    case UintToken(n) => if n > SignedMax(bits) then Refused(ValueOutOfRange) else Admitted(n)
    case FloatToken(f) => if !InSignedWidth(f, bits) then Refused(ValueOutOfRange) else Admitted(f.r.Floor)
    case _ => Refused(TokenMismatch)
  }

  function AdmitUnsigned(bits: nat, t: Token): (r: Admission<int>)
    requires 1 <= bits <= 64
    ensures r.Refused? ==> !r.status.Ok?
  {
    match t
    case UintToken(n) => if n > UnsignedMax(bits) then Refused(ValueOutOfRange) else Admitted(n)
    case SintToken(n) => if n < 0 || n > UnsignedMax(bits) then Refused(ValueOutOfRange) else Admitted(n)
    case FloatToken(f) => if !InUnsignedWidth(f, bits) then Refused(ValueOutOfRange) else Admitted(f.r.Floor)
    case _ => Refused(TokenMismatch)
  }

  /** The integer a token denotes, whichever of the three numeric kinds it is. */
  function TokenInt(t: Token): Option<int> {
    match t
    case SintToken(n) => Some(n)
    case UintToken(n) => Some(n)
    case FloatToken(f) => if Integral(f) then Some(f.r.Floor) else None
    case _ => None
  }

  lemma {:induction false} FloorBetween(f: Floating, lo: int, hi: int)
    requires Integral(f)
    ensures lo as real <= f.r < hi as real <==> lo <= f.r.Floor < hi
  {
  }

  /** A signed target of `bits` bits stores exactly the numbers it has room for. */
  lemma {:induction false} SignedExact(bits: nat, t: Token, n: int)
    requires 1 <= bits <= 64
    ensures AdmitSigned(bits, t) == Admitted(n) <==>
              TokenInt(t) == Some(n) && 0 - Pow2(bits - 1) <= n < Pow2(bits - 1)
  {
    hide Pow2;
    Pow2Values();
    if t.FloatToken? && Integral(t.floating) {
      FloorBetween(t.floating, 0 - Pow2(bits - 1), Pow2(bits - 1));
    }
  }

  /** An unsigned target of `bits` bits stores exactly the numbers it has room for. */
  lemma {:induction false} UnsignedExact(bits: nat, t: Token, n: int)
    requires 1 <= bits <= 64
    ensures AdmitUnsigned(bits, t) == Admitted(n) <==> TokenInt(t) == Some(n) && 0 <= n < Pow2(bits)
  {
    hide Pow2;
    Pow2Values();
    if t.FloatToken? && Integral(t.floating) {
      FloorBetween(t.floating, 0, Pow2(bits));
    }
  }

  // ----- integers in binary floating storage

  /** Magnitude of a signed 64-bit number, the most negative one included. */
  function SignedMagnitude(n: int): nat
    requires INT64_MIN <= n <= INT64_MAX
  {
    if n >= 0 then n else -(n + 1) + 1
  }

  function BitLengthOf(v: nat): (b: nat) {
    if v == 0 then 0 else 1 + BitLengthOf(v / 2)
  }

  lemma {:induction false} BitLengthBounds(v: nat)
    ensures v < Pow2(BitLengthOf(v))
    ensures v > 0 ==> Pow2(BitLengthOf(v) - 1) <= v
  {
    if v > 0 {
      BitLengthBounds(v / 2);
    }
  }

  method BitLength(v: nat) returns (bits: nat)
    ensures bits == BitLengthOf(v)
  {
    bits := 0;
    var value := v;
    while value != 0
      invariant bits + BitLengthOf(value) == BitLengthOf(v)
    {
      bits := bits + 1;
      value := value / 2;
    }
  }

  /** `v` is a significand of at most `precision` bits times a power of two. */
  ghost predicate Representable(v: nat, precision: nat) {
    exists m: nat, e: nat :: IsProduct(v, precision, m, e)
  }

  predicate IsProduct(v: nat, precision: nat, m: nat, e: nat) {
    m < Pow2(precision) && v == m * Pow2(e)
  }

  /** The test on a 64-bit magnitude: the bits below the significand are zero. */
  predicate ExactInBinarySpec(v: nat, precision: nat) {
    var bits := BitLengthOf(v);
    bits <= precision || (bits - precision < 64 && v % Pow2(bits - precision) == 0)
  }

  method ExactInBinary(v: nat, precision: nat) returns (exact: bool)
    requires v <= UINT64_MAX
    ensures exact == ExactInBinarySpec(v, precision)
  {
    var bits := BitLength(v);
    if bits <= precision {
      return true;
    }
    var shift := bits - precision;
    if shift >= 64 {
      return false;
    }
    return v % Pow2(shift) == 0;
  }

  lemma {:induction false} DivideOut(v: nat, d: nat, bound: nat)
    requires d > 0 && v % d == 0 && v < bound * d
    ensures v / d < bound && v == (v / d) * d
  {
  }

  lemma {:induction false} MultipleHasNoRest(m: nat, d: nat)
    requires d > 0
    ensures (m * d) % d == 0
  {
    var k, r := (m * d) / d, (m * d) % d;
    var x := m - k;
    assert x * d == r;
    assert x >= 1 ==> x * d >= d;
    assert x <= -1 ==> x * d <= 0 - d;
  }

  lemma {:induction false} EnoughTrailingZeros(v: nat, precision: nat, m: nat, e: nat)
    requires IsProduct(v, precision, m, e) && BitLengthOf(v) > precision
    ensures e >= BitLengthOf(v) - precision
  {
    var bits := BitLengthOf(v);
    BitLengthBounds(v);
    if e < bits - precision {
      Pow2Monotone(e, bits - 1 - precision);
      Pow2Add(precision, bits - 1 - precision);
      Products(m, Pow2(precision), Pow2(e), Pow2(bits - 1 - precision));
    }
  }

  lemma {:induction false} Products(a: nat, b: nat, c: nat, d: nat)
    requires a < b && 0 < c <= d
    ensures a * c < b * d
  {
    assert a * c <= a * d;
    assert a * d < b * d;
  }

  lemma {:induction false} ExactIsRepresentable(v: nat, precision: nat)
    requires ExactInBinarySpec(v, precision)
    ensures Representable(v, precision)
  {
    var bits := BitLengthOf(v);
    BitLengthBounds(v);
    hide BitLengthOf, Pow2;
    if bits <= precision {
      Pow2Monotone(bits, precision);
      Pow2Zero();
      assert IsProduct(v, precision, v, 0);
    } else {
      var shift := bits - precision;
      Pow2Add(precision, shift);
      DivideOut(v, Pow2(shift), Pow2(precision));
      assert IsProduct(v, precision, v / Pow2(shift), shift);
    }
  }

  lemma {:induction false} Pow2Zero()
    ensures Pow2(0) == 1
  {
  }

  lemma {:induction false} RepresentableIsExact(v: nat, precision: nat)
    requires v <= UINT64_MAX && Representable(v, precision)
    ensures ExactInBinarySpec(v, precision)
  {
    hide BitLengthOf, Pow2, IsProduct;
    var bits := BitLengthOf(v);
    if bits > precision {
      var shift := bits - precision;
      var m: nat, e: nat :| IsProduct(v, precision, m, e);
      EnoughTrailingZeros(v, precision, m, e);
      Pow2Add(e - shift, shift);
      ProductIs(v, precision, m, e);
      TrailingZeros(v, m, Pow2(e - shift), Pow2(shift));
      ShiftBelow64(v, precision);
    }
  }

  lemma {:induction false} ProductIs(v: nat, precision: nat, m: nat, e: nat)
    requires IsProduct(v, precision, m, e)
    ensures v == m * Pow2(e)
  {
  }

  /** An integer is admitted into binary floating storage of the given precision exactly when
      it is representable there. */
  lemma {:induction false} ExactMeansRepresentable(v: nat, precision: nat)
    requires v <= UINT64_MAX
    ensures ExactInBinarySpec(v, precision) <==> Representable(v, precision)
  {
    hide ExactInBinarySpec, Representable;
    if ExactInBinarySpec(v, precision) {
      ExactIsRepresentable(v, precision);
    }
    if Representable(v, precision) {
      RepresentableIsExact(v, precision);
    }
  }

  lemma {:induction false} TrailingZeros(v: nat, m: nat, a: nat, d: nat)
    requires d > 0 && v == m * (a * d)
    ensures v % d == 0
  {
    assert v == (m * a) * d;
    MultipleHasNoRest(m * a, d);
  }

  /** With no precision at all, only zero is representable; otherwise the shift is short. */
  lemma {:induction false} ShiftBelow64(v: nat, precision: nat)
    requires v <= UINT64_MAX && BitLengthOf(v) > precision
    ensures BitLengthOf(v) <= 64
    ensures precision == 0 ==> !Representable(v, precision)
  {
    BitLengthBounds(v);
    Pow2Values();
    if BitLengthOf(v) > 64 {
      Pow2Monotone(64, BitLengthOf(v) - 1);
    }
  }

  /** The magnitude of a signed number is its absolute value, so a signed number is admitted
      exactly when its absolute value is representable; INT64_MIN needs one bit. */
  lemma {:induction false} SignedFloatExact(n: int, precision: nat)
    requires INT64_MIN <= n <= INT64_MAX
    ensures SignedMagnitude(n) == (if n < 0 then -n else n) <= UINT64_MAX
    ensures ExactInBinarySpec(SignedMagnitude(n), precision) <==> Representable(if n < 0 then -n else n, precision)
    ensures precision > 0 ==> ExactInBinarySpec(SignedMagnitude(INT64_MIN), precision)
  {
    ExactMeansRepresentable(SignedMagnitude(n), precision);
    if precision > 0 {
      Pow2Values();
      Pow2Monotone(1, precision);
      ExactMeansRepresentable(SignedMagnitude(INT64_MIN), precision);
      assert IsProduct(SignedMagnitude(INT64_MIN), precision, 1, 63);
    }
  }
}
