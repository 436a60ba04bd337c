/**
 The record type of the building-statistics program: one `<item>` element of
 the input, with value-based `equals` and `hashCode`.
 */
module Items {

  /** Java's `int`: the range `Integer.parseInt` can produce. */
  newtype int32 = x: int | -0x8000_0000 <= x < 0x8000_0000

  /** One parsed `<item>`: city, street, house number and number of floors. */
  datatype Item = Item(city: string, street: string, house: int32, floor: int32)

  /** What `Item.equals` may be handed: `null`, an object of another class, or an Item. */
  datatype Other = Null | Foreign | AnItem(item: Item)

  /**
   `Item.equals`: `null` and objects that are not Items are never equal; an
   Item is equal exactly when all four fields agree. The identity shortcut
   `this == o` needs no case of its own: the same object has the same fields.
   */
  function Equals(self: Item, o: Other): (r: bool)
    ensures r <==> o == AnItem(self)
  {
    match o
    case AnItem(that) =>
      && self.city == that.city
      && self.street == that.street
      && self.house == that.house
      && self.floor == that.floor
    case _ => false
  }

  /** Records that differ only in the street are not duplicates. */
  lemma StreetDistinguishes(a: Item, b: Item)
    requires a.city == b.city && a.house == b.house && a.floor == b.floor
    requires a.street != b.street
    ensures !Equals(a, AnItem(b)) && !Equals(b, AnItem(a))
  {
  }

  /** 2^32: Java `int` arithmetic is modulo this number. */
  const Modulus: int := 0x1_0000_0000

  /** Java's wrap-around of an `int` result: the int32 congruent to `x` modulo 2^32. */
  function Wrap(x: int): (r: int32)
    ensures (r as int - x) % Modulus == 0
  {
    var m := x % Modulus;
    assert x == Modulus * (x / Modulus) + m;
    assert m - x == Modulus * (-(x / Modulus));
    if m < 0x8000_0000 then m as int32
    else
      assert m - Modulus - x == Modulus * (-(x / Modulus) - 1);
      (m - Modulus) as int32
  }

  /** 31^n. */
  function Pow31(n: nat): int
  {
    if n == 0 then 1 else 31 * Pow31(n - 1)
  }

  /**
   The exact, unbounded polynomial hash of a string: the sum of
   `s[i] * 31^(n-1-i)` over its `n` characters.
   */
  ghost function CharSum(s: string): int
  {
    if s == [] then 0 else s[0] as int * Pow31(|s| - 1) + CharSum(s[1..])
  }

  /** Appending a character multiplies the polynomial by 31 and adds the character. */
  lemma {:induction false} CharSumAppend(p: string, c: char)
    ensures CharSum(p + [c]) == 31 * CharSum(p) + c as int
  {
    if p == [] {
      assert [c][1..] == [];
    } else {
      assert (p + [c])[1..] == p[1..] + [c];
      CharSumAppend(p[1..], c);
      assert Pow31(|p|) == 31 * Pow31(|p| - 1);
      assert p[0] as int * (31 * Pow31(|p| - 1)) == 31 * (p[0] as int * Pow31(|p| - 1));
    }
  }

  /**
   `String.hashCode`: `h = 31 * h + c` over the characters, in `int`
   arithmetic, starting from 0. The result is the exact polynomial hash
   reduced modulo 2^32.
   */
  function StringHash(s: string): (h: int32)
    ensures (h as int - CharSum(s)) % Modulus == 0
  {
    if s == [] then 0
    else
      var p, c := s[..|s| - 1], s[|s| - 1];
      var h := Wrap(31 * StringHash(p) as int + c as int);
      assert s == p + [c];
      CharSumAppend(p, c);
      ScaleMultiple(StringHash(p) as int - CharSum(p), 31);
      assert h as int - CharSum(s)
          == (h as int - (31 * StringHash(p) as int + c as int)) + 31 * (StringHash(p) as int - CharSum(p));
      SumOfMultiples(h as int - (31 * StringHash(p) as int + c as int), 31 * (StringHash(p) as int - CharSum(p)), 0, 0);
      h
  }

  /** `Integer.hashCode`: the value itself. */
  function IntHash(x: int32): int32
  {
    x
  }

  /** One step of `Arrays.hashCode`, which `Objects.hash` uses: `31 * result + h`. */
  function HashStep(result: int32, h: int32): (r: int32)
    ensures (r as int - (31 * result as int + h as int)) % Modulus == 0
  {
    Wrap(31 * result as int + h as int)
  }

  /**
   `Item.hashCode`, i.e. `Objects.hash(city, street, house, floor)`: the
   polynomial 31^4 + 31^3 city + 31^2 street + 31 house + floor, modulo 2^32.
   */
  function HashCode(x: Item): (h: int32)
    ensures (h as int - (923521 + 29791 * StringHash(x.city) as int + 961 * StringHash(x.street) as int
                         + 31 * x.house as int + x.floor as int)) % Modulus == 0
  {
    NestedHashSteps(StringHash(x.city), StringHash(x.street), IntHash(x.house), IntHash(x.floor));
    HashStep(HashStep(HashStep(HashStep(1, StringHash(x.city)), StringHash(x.street)), IntHash(x.house)), IntHash(x.floor))
  }

  /** Four nested `HashStep`s starting from 1 compute the polynomial modulo 2^32. */
  lemma NestedHashSteps(a: int32, b: int32, c: int32, d: int32)
    ensures (HashStep(HashStep(HashStep(HashStep(1, a), b), c), d) as int
             - (923521 + 29791 * a as int + 961 * b as int + 31 * c as int + d as int)) % Modulus == 0
  {
    var h1 := HashStep(1, a);
    var h2 := HashStep(h1, b);
    var h3 := HashStep(h2, c);
    var h4 := HashStep(h3, d);
    HashStepsPolynomial(a, b, c, d, h1, h2, h3, h4);
  }

  /** `k * d` is a multiple of 2^32 whenever `d` is. */
  lemma ScaleMultiple(d: int, k: int)
    requires d % Modulus == 0
    ensures (k * d) % Modulus == 0
  {
    var q := d / Modulus;
    assert d == Modulus * q;
    assert k * d == Modulus * (k * q);
  }

  /** Unfolds the four wrapped steps into one congruence. */
  lemma HashStepsPolynomial(a: int32, b: int32, c: int32, d: int32, h1: int32, h2: int32, h3: int32, h4: int32)
    requires (h1 as int - (31 + a as int)) % Modulus == 0
    requires (h2 as int - (31 * h1 as int + b as int)) % Modulus == 0
    requires (h3 as int - (31 * h2 as int + c as int)) % Modulus == 0
    requires (h4 as int - (31 * h3 as int + d as int)) % Modulus == 0
    ensures (h4 as int - (923521 + 29791 * a as int + 961 * b as int + 31 * c as int + d as int)) % Modulus == 0
  {
    var e1 := h1 as int - (31 + a as int);
    var e2 := h2 as int - (31 * h1 as int + b as int);
    var e3 := h3 as int - (31 * h2 as int + c as int);
    var e4 := h4 as int - (31 * h3 as int + d as int);
    ScaleMultiple(e1, 29791);
    ScaleMultiple(e2, 961);
    ScaleMultiple(e3, 31);
    var total := h4 as int - (923521 + 29791 * a as int + 961 * b as int + 31 * c as int + d as int);
    assert total == e4 + 31 * e3 + 961 * e2 + 29791 * e1;
    SumOfMultiples(e4, 31 * e3, 961 * e2, 29791 * e1);
  }

  /** A sum of four multiples of 2^32 is one. */
  lemma SumOfMultiples(w: int, x: int, y: int, z: int)
    requires w % Modulus == 0 && x % Modulus == 0 && y % Modulus == 0 && z % Modulus == 0
    ensures (w + x + y + z) % Modulus == 0
  {
    assert w == Modulus * (w / Modulus);
    assert x == Modulus * (x / Modulus);
    assert y == Modulus * (y / Modulus);
    assert z == Modulus * (z / Modulus);
    assert w + x + y + z == Modulus * (w / Modulus + x / Modulus + y / Modulus + z / Modulus);
  }

  /** `hashCode` is consistent with `equals`: equal Items hash alike. */
  lemma HashConsistentWithEquals(a: Item, b: Item)
    requires Equals(a, AnItem(b))
    ensures HashCode(a) == HashCode(b)
  {
  }
}
