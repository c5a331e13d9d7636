/**
 * The values that biodata and contact-request documents hold, how MongoDB
 * compares them (in an equality filter and in a sort), and the two JavaScript
 * coercions the route handlers apply to them: `Number(v)` and `v + 1`.
 */
module Values {

  datatype Option<T> = None | Some(value: T)

  /** A document's `_id`. Only its identity matters to the handlers. */
  type ObjectId = nat

  /**
   * A field value: the scalars a JSON request body can carry (null, booleans,
   * integers, strings), the NaN that `Number()` produces for text it cannot
   * read, and a `Date` that the server itself writes.
   */
  datatype Value = Null | Bool(b: bool) | Num(n: int) | Str(s: string) | NaN | Date(t: int)

  /** A document: field name to value. A field that is not there reads as `undefined`. */
  type Doc = map<string, Value>

  /** `d.field`, with `None` for `undefined`. */
  function Get(d: Doc, field: string): Option<Value>
  {
    if field in d then Some(d[field]) else None
  }

  /** The values `express.json()` can put in a request body (nested objects and arrays are not modelled). */
  predicate IsJsonValue(v: Value)
  {
    v.Null? || v.Bool? || v.Num? || v.Str?
  }

  predicate IsJsonBody(body: Doc)
  {
    forall f :: f in body ==> IsJsonValue(body[f])
  }

  /**
   * The value a filter compares: the driver sends `undefined` as null, and a
   * null in a filter also matches a document that lacks the field.
   */
  function Stored(v: Option<Value>): Value
  {
    if v.Some? then v.value else Null
  }

  /** The equality filter `{ field: q }` selects `d`. */
  predicate Matches(d: Doc, field: string, q: Option<Value>)
  {
    Stored(Get(d, field)) == Stored(q)
  }

  // ---------------------------------------------------------------------------
  // JavaScript `Number(v)`

  predicate IsDigit(c: char)
  {
    '0' <= c <= '9'
  }

  predicate IsDigits(s: string)
  {
    |s| > 0 && forall i :: 0 <= i < |s| ==> IsDigit(s[i])
  }

  /** The number that a string of decimal digits denotes. */
  function DecimalValue(s: string): nat
    requires forall i :: 0 <= i < |s| ==> IsDigit(s[i])
  {
    if s == [] then 0
    else
      assert IsDigit(s[|s| - 1]);
      DecimalValue(s[..|s| - 1]) * 10 + (s[|s| - 1] as int - '0' as int)
  }

  /**
   * `Number(s)` for a string: the empty string is 0, a run of decimal digits
   * with an optional sign is its value, everything else is NaN.
   */
  function StringToNumber(s: string): (r: Value)
    ensures r.Num? || r.NaN?
  {
    if s == "" then Num(0)
    else if IsDigits(s) then Num(DecimalValue(s))
    else if s[0] == '-' && IsDigits(s[1..]) then Num(-(DecimalValue(s[1..]) as int))
    else if s[0] == '+' && IsDigits(s[1..]) then Num(DecimalValue(s[1..]))
    else NaN
  }

  /**
   * `Number(v)`: always a number or NaN, and a number or NaN is left as it is,
   * so coercing twice is coercing once.
   */
  function ToNumber(v: Option<Value>): (r: Value)
    ensures r.Num? || r.NaN?
    ensures v.Some? && (v.value.Num? || v.value.NaN?) ==> r == v.value
  {
    match v
    case None => NaN
    case Some(Null) => Num(0)
    case Some(Bool(b)) => Num(if b then 1 else 0)
    case Some(Num(n)) => Num(n)
    case Some(NaN) => NaN
    case Some(Str(s)) => StringToNumber(s)
    case Some(Date(t)) => Num(t)
  }

  /** `String(n)` for a natural number: its decimal digits, most significant first. */
  function DecimalText(n: nat): string
  {
    if n < 10 then [DigitChar(n)] else DecimalText(n / 10) + [DigitChar(n % 10)]
  }

  function DigitChar(d: nat): char
    requires d < 10
  {
    ('0' as int + d) as char
  }

  lemma {:induction false} DecimalTextValue(n: nat)
    ensures IsDigits(DecimalText(n))
    ensures DecimalValue(DecimalText(n)) == n
  {
    if n >= 10 {
      DecimalTextValue(n / 10);
      var s := DecimalText(n);
      assert s[..|s| - 1] == DecimalText(n / 10);
    }
  }

  /** A number sent as its decimal text is coerced back to the same number. */
  lemma NumberOfDecimalText(n: nat)
    ensures ToNumber(Some(Str(DecimalText(n)))) == Num(n)
  {
    DecimalTextValue(n);
  }

  // ---------------------------------------------------------------------------
  // JavaScript `v + 1`

  /**
   * `v + 1` for a `biodataId` read back from the store: undefined gives NaN,
   * null counts as 0, a boolean as 0 or 1, and a string is concatenated with "1".
   * A Date never reaches it, since no request body carries one.
   */
  function PlusOne(v: Option<Value>): Value
    requires v.None? || !v.value.Date?
  {
    match v
    case None => NaN
    case Some(Null) => Num(1)
    case Some(Bool(b)) => Num(if b then 2 else 1)
    case Some(Num(n)) => Num(n + 1)
    case Some(NaN) => NaN
    case Some(Str(s)) => Str(s + "1")
  }

  // ---------------------------------------------------------------------------
  // MongoDB's sort order

  /** The type bracket of a value in MongoDB's comparison order. */
  function SortRank(v: Value): nat
  {
    match v
    case Null => 0
    case NaN => 1
    case Num(_) => 1
    case Str(_) => 2
    case Bool(_) => 3
    case Date(_) => 4
  }

  /** Binary comparison of strings: character by character, a prefix first. */
  predicate StrLe(s: string, t: string)
  {
    s == [] || (t != [] && (s[0] < t[0] || (s[0] == t[0] && StrLe(s[1..], t[1..]))))
  }

  /**
   * `a` sorts no later than `b` in ascending order: by type bracket first (null,
   * numbers with NaN lowest, strings, booleans, dates), then by value.
   */
  predicate SortLe(a: Value, b: Value)
  {
    if SortRank(a) != SortRank(b) then SortRank(a) < SortRank(b)
    else match (a, b)
      case (Num(x), Num(y)) => x <= y
      case (Num(_), NaN) => false
      case (Str(x), Str(y)) => StrLe(x, y)
      case (Bool(x), Bool(y)) => !x || y
      case (Date(x), Date(y)) => x <= y
      case _ => true
  }

  lemma {:induction false} StrLeTotal(s: string, t: string)
    ensures StrLe(s, t) || StrLe(t, s)
  {
    if s != [] && t != [] && s[0] == t[0] {
      StrLeTotal(s[1..], t[1..]);
    }
  }

  lemma {:induction false} StrLeTransitive(s: string, t: string, u: string)
    requires StrLe(s, t) && StrLe(t, u)
    ensures StrLe(s, u)
  {
    if s != [] && s[0] == t[0] && t[0] == u[0] {
      StrLeTransitive(s[1..], t[1..], u[1..]);
    }
  }

  lemma SortLeTotal(a: Value, b: Value)
    ensures SortLe(a, b) || SortLe(b, a)
  {
    if a.Str? && b.Str? {
      StrLeTotal(a.s, b.s);
    }
  }

  lemma SortLeTransitive(a: Value, b: Value, c: Value)
    requires SortLe(a, b) && SortLe(b, c)
    ensures SortLe(a, c)
  {
    if a.Str? && b.Str? && c.Str? {
      StrLeTransitive(a.s, b.s, c.s);
    }
  }
}
