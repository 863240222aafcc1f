/** The part of JavaScript's value semantics that the route handlers and the
    components rely on: values produced by JSON.parse, truthiness (what `if (!x)`
    and `x || d` test), property access that throws on null or undefined, and
    the decimal text of a non-negative integer (what a template literal prints
    for `Date.now()`). */
module Js {

  datatype Option<+T> = None | Some(value: T)

  /** A value as JSON.parse produces it. Numbers are kept as reals: the code
      only ever asks whether one is zero. */
  datatype Json =
    | JNull
    | JBool(b: bool)
    | JNumber(n: real)
    | JString(s: string)
    | JArray(items: seq<Json>)
    | JObject(fields: map<string, Json>)

  /** The outcome of JSON.parse, also of `request.json()` and `response.json()`:
      a body that is not JSON makes them throw a SyntaxError. */
  datatype Parsed = SyntaxError | Parsed(value: Json)

  /** A property key: `.name` or `[i]`. */
  datatype Key = Name(name: string) | Index(i: nat)

  /** The outcome of a property access: it throws (a TypeError), or it yields a
      value, `None` standing for `undefined`. */
  datatype Access = Throws | Got(v: Option<Json>)

  /** JavaScript truthiness of a value (`None` is `undefined`). JSON never
      yields NaN, so zero is the only falsy number. */
  predicate Truthy(v: Option<Json>)
  {
    match v
    case None => false
    case Some(JNull) => false
    case Some(JBool(b)) => b
    case Some(JNumber(n)) => n != 0.0
    case Some(JString(s)) => s != ""
    case Some(_) => true
  }

  /** `v.name` or `v[i]`. Reading a property of null or undefined throws; an
      object looks the key up (an index is looked up by its decimal text); an
      array or a string yields the element at an index in range; every other
      access yields undefined (the prototype members, such as `length`, are
      never read by the code modelled here). */
  function Member(v: Option<Json>, k: Key): (r: Access)
    ensures r.Throws? <==> v.None? || v == Some(JNull)
    ensures v.Some? && v.value.JObject? && k.Name? ==>
      r == Got(if k.name in v.value.fields then Some(v.value.fields[k.name]) else None)
    ensures v.Some? && v.value.JArray? && k.Index? ==>
      r == Got(if k.i < |v.value.items| then Some(v.value.items[k.i]) else None)
  {
    match v
    case None => Throws
    case Some(JNull) => Throws
    case Some(JObject(fields)) =>
      var name := if k.Name? then k.name else Decimal(k.i);
      Got(if name in fields then Some(fields[name]) else None)
    case Some(JArray(items)) =>
      Got(if k.Index? && k.i < |items| then Some(items[k.i]) else None)
    case Some(JString(s)) =>
      Got(if k.Index? && k.i < |s| then Some(JString([s[k.i]])) else None)
    case Some(_) => Got(None)
  }

  /** Property access along a path, `v.k0.k1...`; the first access that throws
      makes the whole chain throw. */
  function Path(v: Option<Json>, keys: seq<Key>): (r: Access)
    decreases |keys|
  {
    if keys == [] then Got(v)
    else
      match Member(v, keys[0])
      case Throws => Throws
      case Got(w) => Path(w, keys[1..])
  }

  /** The chain throws exactly when some prefix of it reaches null or undefined
      before the last key is read. */
  lemma {:induction false} PathThrows(v: Option<Json>, keys: seq<Key>)
    ensures Path(v, keys).Throws? <==>
      exists n :: 0 <= n < |keys| && PathPrefixIsNullish(v, keys, n)
    decreases |keys|
  {
    if keys != [] {
      match Member(v, keys[0])
      case Throws =>
        assert PathPrefixIsNullish(v, keys, 0);
      case Got(w) =>
        PathThrows(w, keys[1..]);
        if Path(w, keys[1..]).Throws? {
          var n :| 0 <= n < |keys| - 1 && PathPrefixIsNullish(w, keys[1..], n);
          PrefixShift(v, keys, n);
          assert PathPrefixIsNullish(v, keys, n + 1);
        } else {
          forall n | 0 <= n < |keys|
            ensures !PathPrefixIsNullish(v, keys, n)
          {
            if n > 0 {
              PrefixShift(v, keys, n - 1);
            }
          }
        }
    }
  }

  /** Following the first n keys succeeds and reaches null or undefined. */
  predicate PathPrefixIsNullish(v: Option<Json>, keys: seq<Key>, n: nat)
    requires n <= |keys|
  {
    var p := Path(v, keys[..n]);
    p.Got? && (p.v.None? || p.v == Some(JNull))
  }

  lemma PrefixShift(v: Option<Json>, keys: seq<Key>, n: nat)
    requires n < |keys| && Member(v, keys[0]).Got?
    ensures PathPrefixIsNullish(v, keys, n + 1) <==>
      PathPrefixIsNullish(Member(v, keys[0]).v, keys[1..], n)
  {
    assert keys[..n + 1][1..] == keys[1..][..n];
  }

  /** The decimal text of a digit. */
  function DigitChar(d: nat): char
    requires d < 10
  {
    "0123456789"[d]
  }

  /** `String(n)` for a non-negative integer: its decimal digits, most
      significant first, with no leading zero. */
  function Decimal(n: nat): (s: string)
    ensures |s| >= 1 && (|s| > 1 ==> s[0] != '0')
    ensures forall i :: 0 <= i < |s| ==> '0' <= s[i] <= '9'
  {
    if n < 10 then [DigitChar(n)] else Decimal(n / 10) + [DigitChar(n % 10)]
  }

  /** Reads decimal digits back into a number; the reference that Decimal is
      checked against. */
  function DigitsValue(s: string): nat
    requires forall i :: 0 <= i < |s| ==> '0' <= s[i] <= '9'
  {
    if s == [] then 0
    else DigitsValue(s[..|s| - 1]) * 10 + ((s[|s| - 1] as int) - ('0' as int))
  }

  /** Decimal loses nothing: reading its digits back gives the number. */
  lemma {:induction false} DecimalRoundTrip(n: nat)
    ensures DigitsValue(Decimal(n)) == n
  {
    DigitCharValue(n % 10);
    if n >= 10 {
      var s := Decimal(n);
      assert s[..|s| - 1] == Decimal(n / 10);
      assert s[|s| - 1] == DigitChar(n % 10);
      DecimalRoundTrip(n / 10);
      assert DigitsValue(s) == (n / 10) * 10 + n % 10;
    }
  }

  lemma DigitCharValue(d: nat)
    requires d < 10
    ensures (DigitChar(d) as int) - ('0' as int) == d
  {
  }

  /** Hence two different numbers never print the same. */
  lemma DecimalInjective(m: nat, n: nat)
    requires Decimal(m) == Decimal(n)
    ensures m == n
  {
    DecimalRoundTrip(m);
    DecimalRoundTrip(n);
  }
}
