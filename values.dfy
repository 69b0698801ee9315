/** The JavaScript values, exceptions and completions the generator library deals with. */
module Values {

  /** A value as seen by the library: the primitives it compares and a list (a JS array). */
  datatype Value =
    | Undefined
    | Null
    | Bool(b: bool)
    | Num(n: int)
    | Str(s: string)
    | List(items: seq<Value>)

  datatype Option<T> = None | Some(value: T)

  /** The exceptions that travel through a drive. */
  datatype Exception =
    | BreakIteration       // the singleton thrown by stop()
    | IterationError       // Yield called after its drive ended
    | TypeError            // malformed params, or sortBy keys that cannot be compared
    | UserError(code: int) // anything a callback throws on its own

  /** How a piece of code finished: it returned, or it threw. */
  datatype Completion = Normal | Abrupt(ex: Exception)

  /** A value, or the exception computing it threw. */
  datatype Result<T> = Ok(value: T) | Err(ex: Exception)

  /** JavaScript truthiness, used by all() and any() when no predicate is given. */
  predicate Truthy(v: Value)
  {
    match v
    case Undefined => false
    case Null => false
    case Bool(b) => b
    case Num(n) => n != 0
    case Str(s) => s != []
    case List(_) => true
  }

  /** The `typeof` classes of the primitive values; a list is an "object" like null. */
  datatype TypeTag = TUndefined | TObject | TBoolean | TNumber | TString

  function TypeOf(v: Value): TypeTag
  {
    match v
    case Undefined => TUndefined
    case Null => TObject
    case Bool(_) => TBoolean
    case Num(_) => TNumber
    case Str(_) => TString
    case List(_) => TObject
  }

  /**
   * The UTF-16 code units of one character: the character itself below 0x10000,
   * and a high and a low surrogate above it.
   */
  function Utf16(c: char): (r: seq<int>)
    ensures |r| == if c as int < 0x10000 then 1 else 2
    ensures 0xD800 <= r[0] < 0xDC00 <==> |r| == 2
    ensures forall k :: 0 <= k < |r| ==> 0 <= r[k] < 0x10000
  {
    var n := c as int;
    if n < 0x10000 then [n]
    else [0xD800 + (n - 0x10000) / 0x400, 0xDC00 + (n - 0x10000) % 0x400]
  }

  /** A string as JavaScript holds it: the code units of its characters, in order. */
  function Units(s: string): (r: seq<int>)
    ensures |r| >= |s|
    decreases |s|
  {
    if s == [] then [] else Utf16(s[0]) + Units(s[1..])
  }

  /** Lexicographic order on code-unit sequences; a proper prefix comes first. */
  predicate UnitsLess(a: seq<int>, b: seq<int>)
    decreases |a|
  {
    if a == [] then b != []
    else if b == [] then false
    else a[0] < b[0] || (a[0] == b[0] && UnitsLess(a[1..], b[1..]))
  }

  /**
   * JavaScript's `<` on two strings: the IsLessThan operation of ECMA-262
   * compares them code unit by code unit, not character by character.
   */
  predicate StrLess(a: string, b: string)
  {
    UnitsLess(Units(a), Units(b))
  }

  lemma {:induction false} UnitsLessIrreflexive(a: seq<int>)
    ensures !UnitsLess(a, a)
    decreases |a|
  {
    if a != [] {
      UnitsLessIrreflexive(a[1..]);
    }
  }

  lemma {:induction false} UnitsLessTransitive(a: seq<int>, b: seq<int>, c: seq<int>)
    requires UnitsLess(a, b) && UnitsLess(b, c)
    ensures UnitsLess(a, c)
    decreases |a|
  {
    if a != [] && b != [] && c != [] && a[0] == b[0] && b[0] == c[0] {
      UnitsLessTransitive(a[1..], b[1..], c[1..]);
    }
  }

  lemma {:induction false} UnitsLessTotal(a: seq<int>, b: seq<int>)
    ensures a == b || UnitsLess(a, b) || UnitsLess(b, a)
    decreases |a|
  {
    if a != [] && b != [] && a[0] == b[0] {
      UnitsLessTotal(a[1..], b[1..]);
      if a[1..] == b[1..] {
        assert a == [a[0]] + a[1..] && b == [b[0]] + b[1..];
      }
    }
  }

  /** Two characters with the same code units are the same character. */
  lemma Utf16Injective(c: char, d: char)
    requires Utf16(c) == Utf16(d)
    ensures c == d
  {
    var n, m := c as int, d as int;
    if n >= 0x10000 {
      assert (n - 0x10000) / 0x400 == (m - 0x10000) / 0x400;
      assert (n - 0x10000) % 0x400 == (m - 0x10000) % 0x400;
      assert n - 0x10000 == 0x400 * ((n - 0x10000) / 0x400) + (n - 0x10000) % 0x400;
      assert m - 0x10000 == 0x400 * ((m - 0x10000) / 0x400) + (m - 0x10000) % 0x400;
    }
  }

  /** The first character's code units open the string's code units. */
  lemma UnitsHead(s: string)
    requires s != []
    ensures Units(s)[..|Utf16(s[0])|] == Utf16(s[0])
    ensures Units(s)[|Utf16(s[0])|..] == Units(s[1..])
    ensures Units(s)[0] == Utf16(s[0])[0]
  {
  }

  /** No two strings share their code units: the surrogate pairs decode uniquely. */
  lemma {:induction false} UnitsInjective(a: string, b: string)
    requires Units(a) == Units(b)
    ensures a == b
    decreases |a|
  {
    if a != [] && b != [] {
      UnitsHead(a);
      UnitsHead(b);
      Utf16Injective(a[0], b[0]);
      UnitsInjective(a[1..], b[1..]);
      assert a == [a[0]] + a[1..] && b == [b[0]] + b[1..];
    }
  }

  lemma StrLessIrreflexive(a: string)
    ensures !StrLess(a, a)
  {
    UnitsLessIrreflexive(Units(a));
  }

  lemma StrLessTransitive(a: string, b: string, c: string)
    requires StrLess(a, b) && StrLess(b, c)
    ensures StrLess(a, c)
  {
    UnitsLessTransitive(Units(a), Units(b), Units(c));
  }

  lemma StrLessTotal(a: string, b: string)
    ensures a == b || StrLess(a, b) || StrLess(b, a)
  {
    UnitsLessTotal(Units(a), Units(b));
    if Units(a) == Units(b) {
      UnitsInjective(a, b);
    }
  }

  /**
   * A character above U+FFFF sorts before U+FFFF, as its high surrogate 0xD800
   * is below 0xFFFF, although its code point is above.
   */
  lemma SurrogateOrder()
    ensures StrLess("\U{10000}", "\U{FFFF}")
    ensures !StrLess("\U{FFFF}", "\U{10000}")
  {
    assert Units("\U{10000}") == [0xD800, 0xDC00];
    assert Units("\U{FFFF}") == [0xFFFF];
  }

  /**
   * Two keys a sort comparator can order without throwing: the same `typeof`
   * and either `===` or ordered by `<`/`>`. Lists are left incomparable.
   */
  predicate Comparable(a: Value, b: Value)
  {
    match (a, b)
    case (Undefined, Undefined) => true
    case (Null, Null) => true
    case (Bool(_), Bool(_)) => true
    case (Num(_), Num(_)) => true
    case (Str(_), Str(_)) => true
    case _ => false
  }

  /** JavaScript's `<` on two comparable keys. */
  predicate KeyLess(a: Value, b: Value)
  {
    match (a, b)
    case (Bool(x), Bool(y)) => !x && y
    case (Num(x), Num(y)) => x < y
    case (Str(x), Str(y)) => StrLess(x, y)
    case _ => false
  }

  lemma KeyLessIrreflexive(a: Value)
    ensures !KeyLess(a, a)
  {
    if a.Str? {
      StrLessIrreflexive(a.s);
    }
  }

  lemma KeyLessTransitive(a: Value, b: Value, c: Value)
    requires KeyLess(a, b) && KeyLess(b, c)
    ensures KeyLess(a, c)
  {
    if a.Str? {
      StrLessTransitive(a.s, b.s, c.s);
    }
  }

  /** Comparable keys are equal or ordered one way: the comparator never reaches its throw. */
  lemma KeyLessTotal(a: Value, b: Value)
    requires Comparable(a, b)
    ensures a == b || KeyLess(a, b) || KeyLess(b, a)
  {
    if a.Str? {
      StrLessTotal(a.s, b.s);
    }
  }
}
