/** Values shared by every module of the model: optional results, errors, and
    the two ways the driver rounds and combines 64-bit numbers. */
module Base {

  datatype Option<+T> = None | Some(value: T)

  datatype Result<+T, +E> = Ok(value: T) | Err(error: E)

  newtype byte = x: int | 0 <= x < 256

  type Pos = n: int | n > 0 witness 1

  /** One more than the largest 64-bit address or file offset. */
  const U64_SPAN: nat := 0x1_0000_0000_0000_0000

  const U32_MAX: nat := 0xFFFF_FFFF

  /** Where the superblock copies lie on every device, and how long each is. */
  const SUPER_OFFSETS: seq<nat> := [0x1_0000, 0x400_0000, 0x40_0000_0000]

  const SUPERBLOCK_SIZE: nat := 4096

  function Min(a: int, b: int): int { if a <= b then a else b }

  function Max(a: int, b: int): int { if a <= b then b else a }

  /** The least multiple of `a` that is at least `x`. */
  function AlignUp(x: nat, a: nat): (r: nat)
    requires a > 0
    ensures r % a == 0 && x <= r < x + a
  {
    if x % a == 0 then x else
      MultipleStep(x, a);
      x + (a - x % a)
  }

  lemma MultipleStep(x: nat, a: nat)
    requires a > 0
    ensures (x + (a - x % a)) % a == 0
  {
    ModOfMultiple(x / a + 1, a);
    assert x + (a - x % a) == (x / a + 1) * a;
  }

  lemma ModOfMultiple(q: int, a: int)
    requires a > 0
    ensures (q * a) % a == 0
  {
    DivUnique(q * a, a, q, 0);
  }

  lemma MapsAssociate<K, V>(a: map<K, V>, b: map<K, V>, c: map<K, V>)
    ensures (a + b) + c == a + (b + c)
  {
  }

  /** A product of lengths is a length. */
  function Times(a: nat, b: nat): nat { a * b }

  lemma Euclid(x: nat, a: nat)
    requires a > 0
    ensures x == Times(x / a, a) + x % a && x % a < a
  {
  }

  lemma TimesOne(a: nat) ensures Times(a, 1) == a {}

  lemma TimesMonotonic(a: nat, b: nat, c: nat)
    requires a <= b
    ensures Times(a, c) <= Times(b, c)
  {
  }

  lemma TimesCommutes(a: nat, b: nat)
    ensures Times(a, b) == Times(b, a)
  {
  }

  lemma TimesAssociates(a: nat, b: nat, c: nat)
    ensures Times(Times(a, b), c) == Times(a, Times(b, c))
  {
    assert (a * b) * c == a * (b * c);
  }

  lemma TimesSum(a: nat, b: nat, c: nat)
    ensures Times(a + b, c) == Times(a, c) + Times(b, c)
  {
    assert (a + b) * c == a * c + b * c;
  }

  lemma TimesNext(a: nat, c: nat)
    ensures Times(a + 1, c) == Times(a, c) + c
  {
  }

  /** Whole rows of `a` and what is left of one row are read off a sum. */
  lemma RowAndRest(q: nat, a: nat, r: nat)
    requires r < a
    ensures (Times(q, a) + r) / a == q && (Times(q, a) + r) % a == r
  {
    DivUnique(q * a + r, a, q, r);
  }

  /** Quotient and remainder are determined by the division equation. */
  lemma DivUnique(x: int, a: int, q: int, r: int)
    requires a > 0 && 0 <= r < a && x == q * a + r
    ensures x / a == q && x % a == r
  {
    var d := x / a - q;
    assert d * a == r - x % a;
    assert d >= 1 ==> d * a >= a;
    assert d <= -1 ==> d * a <= -a;
  }

  /** Two multiples of `a` less than `a` apart are the same number. */
  lemma MultiplesApart(x: int, y: int, a: int)
    requires a > 0 && x % a == 0 && y % a == 0 && x < y
    ensures x + a <= y
  {
    var d := y / a - x / a;
    assert y - x == d * a;
    assert d <= 0 ==> d * a <= 0;
    assert d >= 1 ==> d * a >= a;
  }

  /** Alignment never overshoots an aligned place. */
  lemma AlignUpLeast(x: nat, a: nat, y: nat)
    requires a > 0 && y % a == 0 && x <= y
    ensures AlignUp(x, a) <= y
  {
    if y < AlignUp(x, a) {
      MultiplesApart(y, AlignUp(x, a), a);
    }
  }

  lemma AlignUpGrows(a: nat, b: nat, sector: Pos)
    requires a <= b
    ensures AlignUp(a, sector) <= AlignUp(b, sector)
  {
    AlignUpLeast(a, sector, AlignUp(b, sector));
  }

  lemma ModSum(x: int, y: int, a: int)
    requires a > 0 && x % a == 0 && y % a == 0
    ensures (x + y) % a == 0 && (x - y) % a == 0
  {
    ModOfMultiple(x / a + y / a, a);
    ModOfMultiple(x / a - y / a, a);
    assert x + y == (x / a + y / a) * a;
    assert x - y == (x / a - y / a) * a;
  }
}
