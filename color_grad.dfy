/**
 * The `RGB` colour of the gradient script: three integer components and the hex text
 * `#rrggbb` kept beside them. The arithmetic operators build new colours from the
 * components; the constructor and `setHex` assign the fields in place.
 */
module ColorGrad {
  import opened Wrappers
  import opened Arith

  // ---------------------------------------------------------------------------
  // Component values and the operators on them
  // ---------------------------------------------------------------------------

  /** The three components of an `RGB`. Python leaves them unbounded; 0..255 is the intent. */
  datatype Color = Color(r: int, g: int, b: int)

  const Black := Color(0, 0, 0)

  predicate InRange(c: Color)
  {
    0 <= c.r <= 255 && 0 <= c.g <= 255 && 0 <= c.b <= 255
  }

  /** `min(255, x)`. */
  function Cap(x: int): int
  {
    if x < 255 then x else 255
  }

  function Abs(x: int): int
  {
    if x < 0 then -x else x
  }

  /** Python's `a // k`: the quotient rounded towards minus infinity. */
  function FloorDiv(a: int, k: int): int
    requires k != 0
  {
    if k > 0 || a % k == 0 then a / k else a / k - 1
  }

  /** `__add__`. */
  function Add(x: Color, y: Color): Color
  {
    Color(Cap(x.r + y.r), Cap(x.g + y.g), Cap(x.b + y.b))
  }

  /** `__sub__`. */
  function Sub(x: Color, y: Color): Color
  {
    Color(Abs(x.r - y.r), Abs(x.g - y.g), Abs(x.b - y.b))
  }

  /** `__mul__` by an integer factor. */
  function Mul(x: Color, k: int): Color
  {
    Color(Cap(x.r * k), Cap(x.g * k), Cap(x.b * k))
  }

  /** `__floordiv__`: black for a zero divisor, otherwise each component floor-divided. */
  function Div(x: Color, k: int): Color
  {
    if k == 0 then Black else Color(FloorDiv(x.r, k), FloorDiv(x.g, k), FloorDiv(x.b, k))
  }

  /** `invert`. */
  function Invert(x: Color): Color
  {
    Color(255 - x.r, 255 - x.g, 255 - x.b)
  }

  /** `mix`: the floor of the componentwise average. */
  function Mix(x: Color, y: Color): Color
  {
    Color((x.r + y.r) / 2, (x.g + y.g) / 2, (x.b + y.b) / 2)
  }

  // ---------------------------------------------------------------------------
  // Laws of the operators
  // ---------------------------------------------------------------------------

  /** Python's floor division: `k * q` is the largest multiple of `k` not above `a` (k > 0), or the smallest not below it (k < 0). */
  lemma FloorDivSpec(a: int, k: int)
    requires k != 0
    ensures k > 0 ==> k * FloorDiv(a, k) <= a < k * FloorDiv(a, k) + k
    ensures k < 0 ==> k * FloorDiv(a, k) + k < a <= k * FloorDiv(a, k)
  {
    var q, m := a / k, a % k;
    assert a == k * q + m && 0 <= m;
    assert k * (q - 1) == k * q - k;
    if k < 0 {
      assert m < -k;
    }
  }

  /** Each sum is capped at 255, so in-range colours add to an in-range colour; the order does not matter. */
  lemma AddLaws(x: Color, y: Color)
    ensures Add(x, y) == Add(y, x)
    ensures Add(x, y).r <= 255 && Add(x, y).g <= 255 && Add(x, y).b <= 255
    ensures x.r + y.r <= 255 ==> Add(x, y).r == x.r + y.r
    ensures x.r + y.r >= 255 ==> Add(x, y).r == 255
    ensures x.g + y.g <= 255 ==> Add(x, y).g == x.g + y.g
    ensures x.g + y.g >= 255 ==> Add(x, y).g == 255
    ensures x.b + y.b <= 255 ==> Add(x, y).b == x.b + y.b
    ensures x.b + y.b >= 255 ==> Add(x, y).b == 255
    ensures InRange(x) && InRange(y) ==> InRange(Add(x, y))
    ensures InRange(x) ==> Add(x, Black) == x
  {
  }

  /** The absolute difference: symmetric, zero exactly on equal components, and in range for in-range colours. */
  lemma SubLaws(x: Color, y: Color)
    ensures Sub(x, y) == Sub(y, x)
    ensures Sub(x, x) == Black
    ensures Sub(x, y) == Black <==> x == y
    ensures InRange(x) && InRange(y) ==> InRange(Sub(x, y))
  {
  }

  /** Scaling caps every component at 255; factor 0 gives black and factor 1 keeps an in-range colour. */
  lemma MulLaws(x: Color, k: int)
    ensures Mul(x, k).r <= 255 && Mul(x, k).g <= 255 && Mul(x, k).b <= 255
    ensures Mul(x, 0) == Black
    ensures InRange(x) ==> Mul(x, 1) == x
    ensures InRange(x) && k >= 0 ==> InRange(Mul(x, k))
  {
  }

  /** A zero divisor gives black; a positive divisor keeps in-range colours in range; dividing by 1 is the identity. */
  lemma DivLaws(x: Color, k: int)
    ensures Div(x, 0) == Black
    ensures Div(x, 1) == x
    ensures k > 0 && InRange(x) ==> InRange(Div(x, k))
  {
    if k > 0 && InRange(x) {
      FloorDivSpec(x.r, k);
      FloorDivSpec(x.g, k);
      FloorDivSpec(x.b, k);
      DivBound(x.r, k);
      DivBound(x.g, k);
      DivBound(x.b, k);
    }
  }

  lemma DivBound(a: int, k: int)
    requires 0 <= a && k > 0
    ensures 0 <= a / k <= a
  {
    var q := a / k;
    assert a == k * q + a % k && a % k < k;
    MulMonotone(-1, q, k);
    MulMonotone(k, 1, q);
  }

  /** Inverting twice gives the colour back, and inversion keeps a colour in range. */
  lemma InvertLaws(x: Color)
    ensures Invert(Invert(x)) == x
    ensures InRange(x) <==> InRange(Invert(x))
    ensures Add(x, Invert(x)) == Color(255, 255, 255) <== InRange(x)
  {
  }

  /** Mixing is commutative, a colour mixed with itself is unchanged, and the mix lies between the two. */
  lemma MixLaws(x: Color, y: Color)
    ensures Mix(x, y) == Mix(y, x)
    ensures Mix(x, x) == x
    ensures x.r <= y.r ==> x.r <= Mix(x, y).r <= y.r
    ensures x.g <= y.g ==> x.g <= Mix(x, y).g <= y.g
    ensures x.b <= y.b ==> x.b <= Mix(x, y).b <= y.b
    ensures InRange(x) && InRange(y) ==> InRange(Mix(x, y))
  {
  }

  // ---------------------------------------------------------------------------
  // Hex text: `f"{c:02x}"` and `int(text, 16)`
  // ---------------------------------------------------------------------------

  predicate IsHexDigit(c: char)
  {
    '0' <= c <= '9' || 'a' <= c <= 'f' || 'A' <= c <= 'F'
  }

  function HexDigitValue(c: char): (v: nat)
    requires IsHexDigit(c)
    ensures v < 16
  {
    if '0' <= c <= '9' then c as int - '0' as int
    else if 'a' <= c <= 'f' then c as int - 'a' as int + 10
    else c as int - 'A' as int + 10
  }

  /** The lower-case hex digit for `d`. */
  function HexChar(d: nat): (c: char)
    requires d < 16
    ensures IsHexDigit(c) && HexDigitValue(c) == d && !('A' <= c <= 'Z')
  {
    if d < 10 then ('0' as int + d) as char else ('a' as int + d - 10) as char
  }

  /** `format(n, "x")` for `n >= 0`: lower-case digits, no leading zeros. */
  function HexDigits(n: nat): string
    decreases n
  {
    if n < 16 then [HexChar(n)] else HexDigits(n / 16) + [HexChar(n % 16)]
  }

  /** `format(x, "02x")`: a minus sign for negatives, and zero-padded to width 2. */
  function Hex02(x: int): string
  {
    if x < 0 then "-" + HexDigits(-x)
    else if x < 16 then "0" + HexDigits(x)
    else HexDigits(x)
  }

  /** The `hx` text the constructor builds. */
  function HexText(c: Color): string
  {
    "#" + Hex02(c.r) + Hex02(c.g) + Hex02(c.b)
  }

  /** Python's slice `s[lo:hi]` for `0 <= lo`, clamped to the string. */
  function Slice(s: string, lo: nat, hi: nat): (t: string)
    ensures |t| <= hi - lo || hi < lo
  {
    var h := if hi < |s| then hi else |s|;
    if lo < h then s[lo..h] else ""
  }

  /** The ASCII characters `str.isspace` accepts: blank, \t, \n, \v, \f, \r and \x1c-\x1f. */
  predicate IsSpace(c: char)
  {
    c == ' ' || 9 as char <= c <= 13 as char || 28 as char <= c <= 31 as char
  }

  /** `s.strip()` for ASCII white space. */
  function Strip(s: string): (t: string)
    ensures |t| <= |s|
    decreases |s|
  {
    if s == [] then s
    else if IsSpace(s[0]) then Strip(s[1..])
    else if IsSpace(s[|s| - 1]) then Strip(s[..|s| - 1])
    else s
  }

  predicate AllHex(s: string)
  {
    forall i :: 0 <= i < |s| ==> IsHexDigit(s[i])
  }

  /** The value of a string of hex digits. */
  function HexValue(s: string): nat
    requires AllHex(s)
  {
    if s == [] then 0 else 16 * HexValue(s[..|s| - 1]) + HexDigitValue(s[|s| - 1])
  }

  /**
   * `int(s, 16)` for the slices `setHex` takes, which hold at most two characters: surrounding
   * white space, then an optional sign, then hex digits. In two characters neither an
   * underscore between digits nor a `0x` prefix followed by a digit fits, so those forms of
   * `int` never arise here.
   */
  function ParseHexField(s: string): Result<int, string>
  {
    var t := Strip(s);
    if t == [] then Err("invalid literal for int() with base 16")
    else
      var negative := t[0] == '-';
      var digits := if t[0] == '-' || t[0] == '+' then t[1..] else t;
      if digits == [] || !AllHex(digits) then
        Err("invalid literal for int() with base 16")
      else
        var v: int := HexValue(digits);
        Ok(if negative then -v else v)
  }

  /** The three components `setHex` reads from `hx[1:3]`, `hx[3:5]` and `hx[5:7]`; the first bad field raises. */
  function ParseHexColor(hx: string): Result<Color, string>
  {
    var r := ParseHexField(Slice(hx, 1, 3));
    if r.Err? then Err(r.error)
    else
      var g := ParseHexField(Slice(hx, 3, 5));
      if g.Err? then Err(g.error)
      else
        var b := ParseHexField(Slice(hx, 5, 7));
        if b.Err? then Err(b.error)
        else Ok(Color(r.value, g.value, b.value))
  }

  /** `s.lower()` for ASCII letters. */
  function Lower(s: string): (t: string)
    ensures |t| == |s|
    ensures forall i :: 0 <= i < |s| ==> (if 'A' <= s[i] <= 'Z' then t[i] == (s[i] as int + 32) as char else t[i] == s[i])
  {
    seq(|s|, i requires 0 <= i < |s| => if 'A' <= s[i] <= 'Z' then (s[i] as int + 32) as char else s[i])
  }

  /** A component in 0..255 is written as exactly two lower-case hex digits. */
  lemma Hex02Byte(x: int)
    requires 0 <= x <= 255
    ensures Hex02(x) == [HexChar(x / 16), HexChar(x % 16)]
  {
    if x >= 16 {
      assert HexDigits(x / 16) == [HexChar(x / 16)];
    }
  }

  /** Two hex digits are read back as the value they were written from. */
  lemma ParseTwoDigits(x: int)
    requires 0 <= x <= 255
    ensures ParseHexField([HexChar(x / 16), HexChar(x % 16)]) == Ok(x)
  {
    var s := [HexChar(x / 16), HexChar(x % 16)];
    assert Strip(s) == s;
    assert s[..1] == [s[0]];
    assert HexValue(s[..1]) == x / 16;
  }

  /** The text of an in-range colour is read back to the colour, and lower-casing leaves it as it is. */
  lemma HexRoundTrip(c: Color)
    requires InRange(c)
    ensures |HexText(c)| == 7
    ensures ParseHexColor(HexText(c)) == Ok(c)
    ensures Lower(HexText(c)) == HexText(c)
  {
    HexTextDigits(c);
    HexTextParses(c);
    HexTextIsLower(c);
  }

  /** "#rrggbb" spelled out digit by digit. */
  lemma HexTextDigits(c: Color)
    requires InRange(c)
    ensures HexText(c) == ['#', HexChar(c.r / 16), HexChar(c.r % 16), HexChar(c.g / 16), HexChar(c.g % 16),
                           HexChar(c.b / 16), HexChar(c.b % 16)]
  {
    Hex02Byte(c.r);
    Hex02Byte(c.g);
    Hex02Byte(c.b);
  }

  lemma HexTextParses(c: Color)
    requires InRange(c)
    ensures ParseHexColor(HexText(c)) == Ok(c)
  {
    HexTextDigits(c);
    var h := HexText(c);
    assert Slice(h, 1, 3) == [HexChar(c.r / 16), HexChar(c.r % 16)];
    assert Slice(h, 3, 5) == [HexChar(c.g / 16), HexChar(c.g % 16)];
    assert Slice(h, 5, 7) == [HexChar(c.b / 16), HexChar(c.b % 16)];
    ParseTwoDigits(c.r);
    ParseTwoDigits(c.g);
    ParseTwoDigits(c.b);
  }

  lemma HexTextIsLower(c: Color)
    requires InRange(c)
    ensures Lower(HexText(c)) == HexText(c)
  {
    HexTextDigits(c);
    var h := HexText(c);
    forall i | 0 <= i < |h|
      ensures !('A' <= h[i] <= 'Z')
    {
      if i == 0 {
        assert h[i] == '#';
      } else {
        assert h[i] in h[1..];
      }
    }
    LowerKeeps(h);
  }

  /**
   * `lower()` leaves no upper-case letter, is idempotent, keeps text without upper-case
   * letters unchanged, and changes a character only into its own lower-case form.
   */
  lemma LowerLaws(s: string)
    ensures forall i :: 0 <= i < |s| ==> !('A' <= Lower(s)[i] <= 'Z')
    ensures Lower(Lower(s)) == Lower(s)
    ensures (forall i :: 0 <= i < |s| ==> !('A' <= s[i] <= 'Z')) ==> Lower(s) == s
    ensures forall i :: 0 <= i < |s| ==> Lower(s)[i] == s[i] || Lower(s)[i] as int == s[i] as int + 32
  {
  }

  /** A text without upper-case letters is its own lower-case form. */
  lemma LowerKeeps(s: string)
    requires forall i :: 0 <= i < |s| ==> !('A' <= s[i] <= 'Z')
    ensures Lower(s) == s
  {
    var t := Lower(s);
    assert forall i :: 0 <= i < |s| ==> t[i] == s[i];
  }

  /** Stripping white space keeps every other character. */
  lemma {:induction false} StripKeeps(s: string, c: char)
    requires c in s && !IsSpace(c)
    ensures c in Strip(s)
    decreases |s|
  {
    if IsSpace(s[0]) {
      assert c in s[1..];
      StripKeeps(s[1..], c);
    } else if IsSpace(s[|s| - 1]) {
      assert c in s[..|s| - 1];
      StripKeeps(s[..|s| - 1], c);
    }
  }

  /** A character `int(.., 16)` accepts nowhere: not a hex digit, not white space, not a sign. */
  predicate Unparsable(c: char)
  {
    !IsHexDigit(c) && !IsSpace(c) && c != '+' && c != '-'
  }

  /** A field holding an unparsable character is refused. */
  lemma FieldRefuses(s: string, c: char)
    requires c in s && Unparsable(c)
    ensures ParseHexField(s).Err?
  {
    StripKeeps(s, c);
    var t := Strip(s);
    var digits := if t[0] == '-' || t[0] == '+' then t[1..] else t;
    var j :| 0 <= j < |t| && t[j] == c;
    if t[0] == '-' || t[0] == '+' {
      assert j > 0 && digits[j - 1] == c;
    }
  }

  /** If any of the three fields is refused, so is the whole text. */
  lemma ColorRefusesField(hx: string, lo: nat)
    requires lo == 1 || lo == 3 || lo == 5
    requires ParseHexField(Slice(hx, lo, lo + 2)).Err?
    ensures ParseHexColor(hx).Err?
  {
  }

  /**
   * `setHex` raises for a text shorter than six characters (its blue field `hx[5:7]` is then
   * empty) and for a text with an unparsable character at positions 1 to 6.
   */
  lemma ParseRefusesBadText(hx: string)
    ensures |hx| <= 5 ==> ParseHexColor(hx).Err?
    ensures forall i :: 1 <= i <= 6 && i < |hx| && Unparsable(hx[i]) ==> ParseHexColor(hx).Err?
  {
    if |hx| <= 5 {
      assert Slice(hx, 5, 7) == "";
      ColorRefusesField(hx, 5);
    }
    forall i | 1 <= i <= 6 && i < |hx| && Unparsable(hx[i])
      ensures ParseHexColor(hx).Err?
    {
      var lo := if i % 2 == 1 then i else i - 1;
      assert hx[i] in Slice(hx, lo, lo + 2);
      FieldRefuses(Slice(hx, lo, lo + 2), hx[i]);
      ColorRefusesField(hx, lo);
    }
  }

  // ---------------------------------------------------------------------------
  // The class: fields assigned in place by the constructor and `setHex`
  // ---------------------------------------------------------------------------

  class RGB {
    var r: int
    var g: int
    var b: int
    var hx: string

    function Value(): Color
      reads this
    {
      Color(r, g, b)
    }

    /** `RGB(r, g, b)`, white by default; `hx` is the `#rrggbb` text of the components. */
    constructor(r: int := 255, g: int := 255, b: int := 255)
      ensures Value() == Color(r, g, b)
      ensures hx == HexText(Color(r, g, b))
    {
      this.r := r;
      this.g := g;
      this.b := b;
      hx := HexText(Color(r, g, b));
    }

    method Plus(other: RGB) returns (c: RGB)
      ensures fresh(c) && c.Value() == Add(Value(), other.Value()) && c.hx == HexText(c.Value())
    {
      c := new RGB(Cap(r + other.r), Cap(g + other.g), Cap(b + other.b));
    }

    method Minus(other: RGB) returns (c: RGB)
      ensures fresh(c) && c.Value() == Sub(Value(), other.Value()) && c.hx == HexText(c.Value())
    {
      c := new RGB(Abs(r - other.r), Abs(g - other.g), Abs(b - other.b));
    }

    method Times(k: int) returns (c: RGB)
      ensures fresh(c) && c.Value() == Mul(Value(), k) && c.hx == HexText(c.Value())
    {
      c := new RGB(Cap(r * k), Cap(g * k), Cap(b * k));
    }

    method FloorDivide(k: int) returns (c: RGB)
      ensures fresh(c) && c.Value() == Div(Value(), k) && c.hx == HexText(c.Value())
    {
      if k == 0 {
        c := new RGB(0, 0, 0);
        return;
      }
      c := new RGB(FloorDiv(r, k), FloorDiv(g, k), FloorDiv(b, k));
    }

    method Inverted() returns (c: RGB)
      ensures fresh(c) && c.Value() == Invert(Value()) && c.hx == HexText(c.Value())
    {
      c := new RGB(255 - r, 255 - g, 255 - b);
    }

    method MixedWith(other: RGB) returns (c: RGB)
      ensures fresh(c) && c.Value() == Mix(Value(), other.Value()) && c.hx == HexText(c.Value())
    {
      c := new RGB((r + other.r) / 2, (g + other.g) / 2, (b + other.b) / 2);
    }

    /** `__eq__`: the components decide; `hx` is not compared. */
    predicate Equals(other: RGB)
      reads this, other
    {
      r == other.r && g == other.g && b == other.b
    }

    /**
     * `setHex`: all three fields are parsed before anything is assigned, so a bad field
     * raises and leaves the colour as it was; otherwise the components and the lower-cased
     * text are stored and the object itself is returned.
     */
    method SetHex(text: string) returns (result: Result<RGB, string>)
      modifies this
      ensures ParseHexColor(text).Err? ==> result.Err? && unchanged(this)
      ensures ParseHexColor(text).Ok? ==>
        result == Ok(this) && Value() == ParseHexColor(text).value && hx == Lower(text)
    {
      var red := ParseHexField(Slice(text, 1, 3));
      if red.Err? {
        return Err(red.error);
      }
      var green := ParseHexField(Slice(text, 3, 5));
      if green.Err? {
        return Err(green.error);
      }
      var blue := ParseHexField(Slice(text, 5, 7));
      if blue.Err? {
        return Err(blue.error);
      }
      r, g, b := red.value, green.value, blue.value;
      hx := Lower(text);
      return Ok(this);
    }

    /** `toHex`. */
    function ToHex(): string
      reads this
    {
      hx
    }

    /** `toRGB`. */
    function ToRGB(): (int, int, int)
      reads this
    {
      (r, g, b)
    }
  }

  /** Equality looks only at the components: two colours with different `hx` texts can be equal. */
  lemma EqualsIgnoresHex(x: RGB, y: RGB)
    ensures x.Equals(y) <==> x.Value() == y.Value()
    ensures x.Equals(y) ==> x.ToRGB() == y.ToRGB()
  {
  }

  /**
   * `RGB().setHex(RGB(r, g, b).toHex())` equals `RGB(r, g, b)` for components in 0..255, and
   * carries the same text.
   */
  method HexRoundTripOnObjects(c: Color) returns (original: RGB, copy: RGB, result: Result<RGB, string>)
    requires InRange(c)
    ensures result == Ok(copy)
    ensures original.Value() == c && copy.Equals(original) && copy.ToHex() == original.ToHex()
  {
    original := new RGB(c.r, c.g, c.b);
    copy := new RGB();
    HexRoundTrip(c);
    result := copy.SetHex(original.ToHex());
  }
}
