/**
 * Request input as the framework hands it over: JSON values, the optional
 * fields of a user payload, and the ordered key/value list `validated()`
 * returns. Also PHP's integer-to-string conversion and the shape of
 * integer text that the `integer` rule accepts.
 */
module Input {
  import opened Wrappers

  /** A JSON scalar of the request body: a string or an integer. */
  datatype Value = Str(s: string) | Num(n: int)

  /** The columns a user payload can name, in the vocabulary of the source's array keys. */
  datatype Key = Id | Name | LastName | Email | Password | Role

  /** A validated payload: the present keys with their values, in the order `validated()` yields them. */
  type Fields = seq<(Key, Value)>

  /** The user fields a request body may carry; `None` is a key that is not there. */
  datatype Payload = Payload(
    id: Option<Value>,
    email: Option<Value>,
    password: Option<Value>,
    name: Option<Value>,
    lastName: Option<Value>,
    role: Option<Value>)

  /** The value the last entry for `key` carries, if any. */
  function Lookup(fields: Fields, key: Key): Option<Value>
    decreases |fields|
  {
    if fields == [] then None
    else if fields[|fields| - 1].0 == key then Some(fields[|fields| - 1].1)
    else Lookup(fields[..|fields| - 1], key)
  }

  /** Looking a key up in two lists joined: the later list wins when it has the key. */
  lemma {:induction false} LookupAppend(a: Fields, b: Fields, key: Key)
    ensures Lookup(a + b, key) == if Lookup(b, key).Some? then Lookup(b, key) else Lookup(a, key)
    decreases |b|
  {
    if b == [] {
      assert a + b == a;
    } else {
      var ab := a + b;
      assert ab[|ab| - 1] == b[|b| - 1];
      assert ab[..|ab| - 1] == a + b[..|b| - 1];
      LookupAppend(a, b[..|b| - 1], key);
    }
  }

  predicate IsDigit(c: char)
  {
    '0' <= c <= '9'
  }

  function DigitChar(d: nat): char
    requires d < 10
  {
    ['0', '1', '2', '3', '4', '5', '6', '7', '8', '9'][d]
  }

  function DigitValue(c: char): nat
    requires IsDigit(c)
  {
    (c as int - '0' as int) as nat
  }

  /** Decimal digits of `n`, most significant first, without leading zeros. */
  function NatToString(n: nat): string
    decreases n
  {
    if n < 10 then [DigitChar(n)] else NatToString(n / 10) + [DigitChar(n % 10)]
  }

  /** PHP's `(string)` of an integer. */
  function IntToString(n: int): string
  {
    if n < 0 then "-" + NatToString(-n) else NatToString(n)
  }

  /** What a string column receives when the source writes a value: PHP's string conversion. */
  function Text(v: Value): string
  {
    match v
    case Str(s) => s
    case Num(n) => IntToString(n)
  }

  predicate AllDigits(s: string)
  {
    forall i :: 0 <= i < |s| ==> IsDigit(s[i])
  }

  /** A non-empty run of digits with no leading zero, or "0" itself. */
  predicate IsNatText(s: string)
  {
    |s| > 0 && AllDigits(s) && (s[0] == '0' ==> |s| == 1)
  }

  /** What `filter_var($v, FILTER_VALIDATE_INT)` accepts: an optional sign and natural-number text. */
  predicate IsIntegerText(s: string)
  {
    IsNatText(s) || (|s| > 1 && (s[0] == '-' || s[0] == '+') && IsNatText(s[1..]))
  }

  function NatValue(s: string): nat
    requires AllDigits(s)
    decreases |s|
  {
    if s == [] then 0 else NatValue(s[..|s| - 1]) * 10 + DigitValue(s[|s| - 1])
  }

  /** The integer an integer text denotes, or `None` for any other string. */
  function ParseInt(s: string): (r: Option<int>)
    ensures r.Some? <==> IsIntegerText(s)
  {
    if IsNatText(s) then Some(NatValue(s))
    else if IsIntegerText(s) then
      var magnitude: int := NatValue(s[1..]);
      Some(if s[0] == '-' then -magnitude else magnitude)
    else None
  }

  lemma {:induction false} NatToStringIsNatText(n: nat)
    ensures IsNatText(NatToString(n))
    ensures NatValue(NatToString(n)) == n
    ensures n > 0 ==> NatToString(n)[0] != '0'
    decreases n
  {
    if n >= 10 {
      var prefix := NatToString(n / 10);
      var s := NatToString(n);
      NatToStringIsNatText(n / 10);
      assert s == prefix + [DigitChar(n % 10)];
      assert s[..|s| - 1] == prefix;
      assert s[0] == prefix[0];
    }
  }

  /** The integer rule accepts the text PHP prints for any integer, and parsing it gives the integer back. */
  lemma {:induction false} ParseIntRoundTrip(n: int)
    ensures IsIntegerText(IntToString(n))
    ensures ParseInt(IntToString(n)) == Some(n)
  {
    if n < 0 {
      var digits := NatToString(-n);
      NatToStringIsNatText(-n);
      var s := IntToString(n);
      assert s == "-" + digits;
      assert s[1..] == digits;
      assert !IsDigit(s[0]);
      assert !IsNatText(s);
    } else {
      NatToStringIsNatText(n);
    }
  }

  /** The characters PHP's `trim` removes. */
  predicate IsTrimmed(c: char)
  {
    c == ' ' || c == '\t' || c == '\n' || c == '\r' || c == '\0' || c == '\U{000B}'
  }

  /** A string that is empty once trimmed: the validator treats it as not filled in. */
  predicate Blank(s: string)
  {
    forall i :: 0 <= i < |s| ==> IsTrimmed(s[i])
  }
}
