/**
 * Python values as the core sees them: JSON-like dictionaries and lists,
 * the `in` operator and `dict.get` with the exceptions they raise, `str()`
 * and `repr()` of those values, and the record that the external QWED
 * verifier (`verify_math` / `verify_logic`) hands back.
 */
module Values {

  datatype Option<+T> = None | Some(value: T)

  datatype Result<+T, +E> = Ok(value: T) | Err(error: E)

  type byte = x: int | 0 <= x < 256

  /** A decoded JSON value. Objects keep Python's insertion order. */
  datatype Json =
    | JNull
    | JBool(b: bool)
    | JInt(i: int)
    | JStr(s: string)
    | JArr(items: seq<Json>)
    | JObj(fields: seq<(string, Json)>)

  /** The Python exceptions the core can raise, with the data `str(e)` shows. */
  datatype PyError =
    | TypeError(msg: string)
    | AttributeError(msg: string)
    | KeyError(key: string)
    | ValueError(msg: string)
    | ZeroDivisionError(msg: string)
    | OverflowError(msg: string)

  // ---------------------------------------------------------------------
  // Dictionaries as ordered association lists

  predicate HasKey(fs: seq<(string, Json)>, key: string) {
    exists i :: 0 <= i < |fs| && fs[i].0 == key
  }

  /** `d[key]` when the key is there; the first entry wins. */
  function Lookup(fs: seq<(string, Json)>, key: string): Option<Json> {
    if |fs| == 0 then None
    else if fs[0].0 == key then Some(fs[0].1)
    else Lookup(fs[1..], key)
  }

  /** Lookup finds a value exactly when the key is present, and the value is
      that of the first entry with the key. */
  lemma {:induction false} LookupSpec(fs: seq<(string, Json)>, key: string)
    ensures Lookup(fs, key).Some? <==> HasKey(fs, key)
    ensures Lookup(fs, key).Some? ==>
      exists i :: (0 <= i < |fs| && fs[i] == (key, Lookup(fs, key).value)
                   && forall j :: 0 <= j < i ==> fs[j].0 != key)
  {
    if |fs| > 0 && fs[0].0 != key {
      LookupSpec(fs[1..], key);
      if HasKey(fs, key) {
        var i :| 0 <= i < |fs| && fs[i].0 == key;
        assert fs[1..][i - 1].0 == key;
      }
      if Lookup(fs, key).Some? {
        var i :| 0 <= i < |fs[1..]| && fs[1..][i] == (key, Lookup(fs, key).value)
          && forall j :: 0 <= j < i ==> fs[1..][j].0 != key;
        assert fs[i + 1] == (key, Lookup(fs, key).value);
        forall j | 0 <= j < i + 1 ensures fs[j].0 != key {
          if j > 0 {
            assert fs[j] == fs[1..][j - 1];
          }
        }
      }
    } else if |fs| > 0 {
      assert HasKey(fs, key) by { assert fs[0].0 == key; }
    }
  }

  predicate UniqueKeys(fs: seq<(string, Json)>) {
    forall i, j :: 0 <= i < j < |fs| ==> fs[i].0 != fs[j].0
  }

  /** `d[key] = value`: an existing key keeps its place, a new one goes last. */
  function SetItem(fs: seq<(string, Json)>, key: string, value: Json): seq<(string, Json)> {
    if |fs| == 0 then [(key, value)]
    else if fs[0].0 == key then [(key, value)] + fs[1..]
    else [fs[0]] + SetItem(fs[1..], key, value)
  }

  /** What `d.pop(key)` leaves behind in a dictionary. */
  function Remove(fs: seq<(string, Json)>, key: string): seq<(string, Json)> {
    if |fs| == 0 then []
    else if fs[0].0 == key then Remove(fs[1..], key)
    else [fs[0]] + Remove(fs[1..], key)
  }

  /** After `d[key] = value`, `key` maps to value and every other key is as before. */
  lemma {:induction false} LookupSetItem(fs: seq<(string, Json)>, key: string, value: Json, other: string)
    ensures Lookup(SetItem(fs, key, value), other) == if other == key then Some(value) else Lookup(fs, other)
  {
    if |fs| > 0 && fs[0].0 != key {
      LookupSetItem(fs[1..], key, value, other);
      assert SetItem(fs, key, value)[1..] == SetItem(fs[1..], key, value);
    } else if |fs| > 0 {
      assert SetItem(fs, key, value)[1..] == fs[1..];
      if other != key {
        LookupTail(fs, other);
      }
    }
  }

  lemma LookupTail(fs: seq<(string, Json)>, key: string)
    requires |fs| > 0 && fs[0].0 != key
    ensures Lookup(fs, key) == Lookup(fs[1..], key)
  {
  }

  /** Removing a key takes away that key and no other. */
  lemma {:induction false} LookupRemove(fs: seq<(string, Json)>, key: string, other: string)
    ensures Lookup(Remove(fs, key), other) == if other == key then None else Lookup(fs, other)
  {
    if |fs| > 0 {
      LookupRemove(fs[1..], key, other);
      if fs[0].0 != key {
        assert Remove(fs, key)[1..] == Remove(fs[1..], key);
      } else if other != key {
        LookupTail(fs, other);
      }
    }
  }

  lemma UniqueTail(fs: seq<(string, Json)>)
    requires |fs| > 0 && UniqueKeys(fs)
    ensures UniqueKeys(fs[1..]) && Lookup(fs[1..], fs[0].0).None?
  {
    LookupSpec(fs[1..], fs[0].0);
    forall i, j | 0 <= i < j < |fs[1..]| ensures fs[1..][i].0 != fs[1..][j].0 {
      assert fs[1..][i] == fs[i + 1] && fs[1..][j] == fs[j + 1];
    }
  }

  lemma UniqueCons(e: (string, Json), t: seq<(string, Json)>)
    requires UniqueKeys(t) && Lookup(t, e.0).None?
    ensures UniqueKeys([e] + t)
  {
    LookupSpec(t, e.0);
    var fs := [e] + t;
    forall i, j | 0 <= i < j < |fs| ensures fs[i].0 != fs[j].0 {
      if i == 0 {
        assert fs[j] == t[j - 1];
      } else {
        assert fs[i] == t[i - 1] && fs[j] == t[j - 1];
      }
    }
  }

  /** Both updates keep dictionary keys distinct. */
  lemma {:induction false} UniqueSetItem(fs: seq<(string, Json)>, key: string, value: Json)
    requires UniqueKeys(fs)
    ensures UniqueKeys(SetItem(fs, key, value))
  {
    if |fs| > 0 {
      UniqueTail(fs);
      if fs[0].0 != key {
        UniqueSetItem(fs[1..], key, value);
        LookupSetItem(fs[1..], key, value, fs[0].0);
        UniqueCons(fs[0], SetItem(fs[1..], key, value));
      } else {
        UniqueCons((key, value), fs[1..]);
      }
    }
  }

  lemma {:induction false} UniqueRemove(fs: seq<(string, Json)>, key: string)
    requires UniqueKeys(fs)
    ensures UniqueKeys(Remove(fs, key))
  {
    if |fs| > 0 {
      UniqueTail(fs);
      UniqueRemove(fs[1..], key);
      if fs[0].0 != key {
        LookupRemove(fs[1..], key, fs[0].0);
        UniqueCons(fs[0], Remove(fs[1..], key));
      }
    }
  }

  /** Setting a key twice to the same value is setting it once. */
  lemma {:induction false} SetItemTwice(fs: seq<(string, Json)>, key: string, value: Json)
    ensures SetItem(SetItem(fs, key, value), key, value) == SetItem(fs, key, value)
  {
    if |fs| > 0 && fs[0].0 != key {
      SetItemTwice(fs[1..], key, value);
      assert SetItem(fs, key, value)[1..] == SetItem(fs[1..], key, value);
    } else if |fs| > 0 {
      assert SetItem(fs, key, value)[1..] == fs[1..];
    }
  }

  /** Removing a key undoes setting it, and removing twice is removing once. */
  lemma {:induction false} RemoveSetItem(fs: seq<(string, Json)>, key: string, value: Json)
    ensures Remove(SetItem(fs, key, value), key) == Remove(fs, key)
    ensures Remove(Remove(fs, key), key) == Remove(fs, key)
  {
    if |fs| > 0 {
      RemoveSetItem(fs[1..], key, value);
      if fs[0].0 != key {
        assert SetItem(fs, key, value)[1..] == SetItem(fs[1..], key, value);
        assert Remove(fs, key)[1..] == Remove(fs[1..], key);
      } else {
        assert SetItem(fs, key, value)[1..] == fs[1..];
      }
    } else {
      assert SetItem(fs, key, value)[1..] == [];
    }
  }

  /** The first entry with the key decides the lookup. */
  lemma {:induction false} LookupAt(fs: seq<(string, Json)>, i: nat, key: string)
    requires i < |fs| && fs[i].0 == key && forall j :: 0 <= j < i ==> fs[j].0 != key
    ensures Lookup(fs, key) == Some(fs[i].1)
  {
    if i > 0 {
      LookupAt(fs[1..], i - 1, key);
    }
  }

  /** In a dictionary with distinct keys, looking up entry i's key finds entry i. */
  lemma LookupUnique(fs: seq<(string, Json)>, i: int)
    requires UniqueKeys(fs) && 0 <= i < |fs|
    ensures Lookup(fs, fs[i].0) == Some(fs[i].1)
  {
    LookupAt(fs, i, fs[i].0);
  }

  /** `v[key]` for a dictionary v that has the key. */
  function Field(v: Json, key: string): Option<Json> {
    if v.JObj? then Lookup(v.fields, key) else None
  }

  // ---------------------------------------------------------------------
  // Python's `in`, `dict.get` and equality with a string

  function TypeName(v: Json): string {
    match v
    case JNull => "NoneType"
    case JBool(_) => "bool"
    case JInt(_) => "int"
    case JStr(_) => "str"
    case JArr(_) => "list"
    case JObj(_) => "dict"
  }

  predicate OccursAt(needle: string, hay: string, i: nat) {
    i + |needle| <= |hay| && hay[i..i + |needle|] == needle
  }

  predicate IsSubstring(needle: string, hay: string) {
    exists i: nat | i <= |hay| :: OccursAt(needle, hay, i)
  }

  /** `item in container` for a string item: dict keys, list elements,
      substrings; anything else is not iterable and raises TypeError. */
  function Contains(container: Json, item: string): Result<bool, PyError> {
    match container
    case JObj(fs) => Ok(HasKey(fs, item))
    case JArr(xs) => Ok(JStr(item) in xs)
    case JStr(s) => Ok(IsSubstring(item, s))
    case _ => Err(TypeError("argument of type '" + TypeName(container) + "' is not iterable"))
  }

  /** `d.get(key, default)` on a dictionary. */
  function GetOr(fs: seq<(string, Json)>, key: string, default: Json): Json {
    match Lookup(fs, key) case Some(v) => v case None => default
  }

  /** `container.get(key, default)`; only a dict has `get`. */
  function Get(container: Json, key: string, default: Json): Result<Json, PyError> {
    match container
    case JObj(fs) => Ok(GetOr(fs, key, default))
    case _ => Err(AttributeError("'" + TypeName(container) + "' object has no attribute 'get'"))
  }

  /** `get` gives the stored value when the key is present and the default otherwise. */
  lemma GetOrSpec(fs: seq<(string, Json)>, key: string, default: Json)
    ensures HasKey(fs, key) ==> Lookup(fs, key).Some? && GetOr(fs, key, default) == Lookup(fs, key).value
    ensures !HasKey(fs, key) ==> GetOr(fs, key, default) == default
  {
    LookupSpec(fs, key);
  }

  /** `in` and `.get` agree on a dictionary: the key is `in` it exactly when
      a value is stored for it, and `get` then returns that value, else the
      default. A value that `in` cannot search (None, a bool, an int) has no
      `get` either, and a list or a string, which `in` can search, has none. */
  lemma ContainsGetAgree(container: Json, key: string, default: Json)
    ensures container.JObj? ==>
      (Contains(container, key) == Ok(true) <==> Lookup(container.fields, key).Some?)
    ensures container.JObj? && Lookup(container.fields, key).Some? ==>
      Get(container, key, default) == Ok(Lookup(container.fields, key).value)
    ensures container.JObj? && Contains(container, key) == Ok(false) ==>
      Get(container, key, default) == Ok(default)
    ensures Contains(container, key).Err? ==>
      Contains(container, key).error.TypeError? && Get(container, key, default).Err?
    ensures Get(container, key, default).Err? <==> !container.JObj?
    ensures Get(container, key, default).Err? ==> Get(container, key, default).error.AttributeError?
  {
    if container.JObj? {
      LookupSpec(container.fields, key);
    }
  }

  /** Setting one key leaves membership and `get` of every other key as they were. */
  lemma GetOrSetItem(fs: seq<(string, Json)>, key: string, value: Json, other: string, default: Json)
    ensures HasKey(SetItem(fs, key, value), other) <==> other == key || HasKey(fs, other)
    ensures other != key ==> GetOr(SetItem(fs, key, value), other, default) == GetOr(fs, other, default)
  {
    LookupSetItem(fs, key, value, other);
    LookupSpec(fs, other);
    LookupSpec(SetItem(fs, key, value), other);
  }

  // ---------------------------------------------------------------------
  // str() and repr()

  function DigitChar(d: nat): char
    requires d < 10
  {
    ('0' as int + d) as char
  }

  /** Decimal digits of a natural number, without leading zeros. */
  function Digits(n: nat): (s: string)
    ensures |s| >= 1 && (forall i :: 0 <= i < |s| ==> '0' <= s[i] <= '9')
    ensures |s| > 1 ==> s[0] != '0'
  {
    if n < 10 then [DigitChar(n)] else Digits(n / 10) + [DigitChar(n % 10)]
  }

  function DigitsValue(s: string): int
  {
    if |s| == 0 then 0 else DigitsValue(s[..|s| - 1]) * 10 + (s[|s| - 1] as int - '0' as int)
  }

  /** Reading the digits back gives the number. */
  lemma {:induction false} DigitsRoundTrip(n: nat)
    ensures DigitsValue(Digits(n)) == n
  {
    if n >= 10 {
      DigitsRoundTrip(n / 10);
      var s := Digits(n);
      assert s[..|s| - 1] == Digits(n / 10);
    }
  }

  /** `str(n)` of a Python int. */
  function DecimalString(n: int): string {
    if n < 0 then "-" + Digits(-n) else Digits(n)
  }

  /** Three digits with leading zeros, for `f"{n:,}"` groups. */
  function Pad3(n: nat): string
    requires n < 1000
  {
    [DigitChar(n / 100), DigitChar(n / 10 % 10), DigitChar(n % 10)]
  }

  function GroupedNat(n: nat): string {
    if n < 1000 then Digits(n) else GroupedNat(n / 1000) + "," + Pad3(n % 1000)
  }

  /** `f"{n:,}"` of a Python int: decimal with a comma between groups of three. */
  function Grouped(n: int): string {
    if n < 0 then "-" + GroupedNat(-n) else GroupedNat(n)
  }

  function RemoveChar(s: string, c: char): (r: string)
    ensures c !in r
  {
    if |s| == 0 then [] else (if s[0] == c then [] else [s[0]]) + RemoveChar(s[1..], c)
  }

  lemma RemoveCharAppend(a: string, b: string, c: char)
    ensures RemoveChar(a + b, c) == RemoveChar(a, c) + RemoveChar(b, c)
  {
    if |a| > 0 {
      assert (a + b)[1..] == a[1..] + b;
    } else {
      assert a + b == b;
    }
  }

  /** Dropping the separators of `f"{n:,}"` leaves `str(n)`. */
  lemma {:induction false} GroupedIsDigits(n: nat)
    ensures RemoveChar(GroupedNat(n), ',') == Digits(n)
  {
    if n < 1000 {
      RemoveAbsent(Digits(n), ',');
    } else {
      var g, p := GroupedNat(n / 1000), Pad3(n % 1000);
      GroupedIsDigits(n / 1000);
      RemoveAbsent(p, ',');
      DigitsSplit3(n);
      assert GroupedNat(n) == g + ("," + p);
      RemoveCharAppend(g, "," + p, ',');
      RemoveCharAppend(",", p, ',');
      assert RemoveChar(",", ',') == "";
      assert RemoveChar("," + p, ',') == p;
    }
  }

  lemma DigitsSplit3(n: nat)
    requires n >= 1000
    ensures Digits(n) == Digits(n / 1000) + Pad3(n % 1000)
  {
    var a, b, c := n / 10, n / 100, n / 1000;
    DivTen(n);
    assert Digits(n) == Digits(a) + [DigitChar(n % 10)];
    assert Digits(a) == Digits(b) + [DigitChar(a % 10)];
    assert Digits(b) == Digits(c) + [DigitChar(b % 10)];
  }

  lemma DivTen(n: nat)
    ensures n / 10 / 10 == n / 100 && n / 100 / 10 == n / 1000
    ensures n % 1000 / 100 == n / 100 % 10 && n % 1000 / 10 % 10 == n / 10 % 10
    ensures n % 1000 % 10 == n % 10
  {
  }

  /** Removing a character that does not occur changes nothing. */
  lemma {:induction false} RemoveAbsent(s: string, c: char)
    requires c !in s
    ensures RemoveChar(s, c) == s
  {
    if |s| > 0 {
      RemoveAbsent(s[1..], c);
      assert s == [s[0]] + s[1..];
    }
  }

  /** Removing a character from text between two pieces that lack it. */
  lemma RemoveCharFrame(p: string, x: string, q: string, y: string, c: char)
    requires c !in p && c !in q
    ensures RemoveChar(p + x + q + y, c) == p + RemoveChar(x, c) + q + RemoveChar(y, c)
  {
    RemoveCharAppend(p + x + q, y, c);
    RemoveCharAppend(p + x, q, c);
    RemoveCharAppend(p, x, c);
    RemoveAbsent(p, c);
    RemoveAbsent(q, c);
  }

  lemma DecimalStringNoComma(n: int)
    ensures ',' !in DecimalString(n) && '.' !in DecimalString(n)
  {
    var d := if n < 0 then Digits(-n) else Digits(n);
    assert forall i :: 0 <= i < |d| ==> '0' <= d[i] <= '9';
  }

  lemma DecimalStringInjective(m: int, n: int)
    requires DecimalString(m) == DecimalString(n)
    ensures m == n
  {
    DecimalStringSign(m);
    DecimalStringSign(n);
    if m < 0 {
      var dm, dn := Digits(-m), Digits(-n);
      StripPrefix("-", dm, dn);
      DigitsInjective(-m, -n);
    } else {
      DigitsInjective(m, n);
    }
  }

  lemma DigitsInjective(m: nat, n: nat)
    requires Digits(m) == Digits(n)
    ensures m == n
  {
    DigitsRoundTrip(m);
    DigitsRoundTrip(n);
  }

  lemma DecimalStringSign(n: int)
    ensures |DecimalString(n)| > 0 && (DecimalString(n)[0] == '-' <==> n < 0)
  {
    if n >= 0 {
      assert '0' <= Digits(n)[0] <= '9';
    }
  }

  /** Dropping a common prefix. */
  lemma StripPrefix(p: string, r1: string, r2: string)
    requires p + r1 == p + r2
    ensures r1 == r2
  {
    assert r1 == (p + r1)[|p|..];
    assert r2 == (p + r2)[|p|..];
  }

  /** Text before a separator that neither prefix contains splits the same way. */
  lemma SplitAtSeparator(x: string, s: string, y: string, t: string, c: char)
    requires c !in x && c !in y && |s| > 0 && |t| > 0 && s[0] == c && t[0] == c
    requires x + s == y + t
    ensures x == y && s == t
  {
    assert (x + s)[|x|] == c && (y + t)[|y|] == c;
    assert forall i :: 0 <= i < |x| ==> (x + s)[i] == x[i] != c;
    assert forall i :: 0 <= i < |y| ==> (y + t)[i] == y[i] != c;
    assert |x| == |y|;
    assert x == (x + s)[..|x|];
    assert y == (y + t)[..|y|];
    assert s == (x + s)[|x|..];
    assert t == (y + t)[|y|..];
  }

  function HexDigit(d: nat): char
    requires d < 16
  {
    "0123456789abcdef"[d]
  }

  /** The body of a string literal after `repr` has chosen quote `q`. */
  function EscapeFor(s: string, q: char): string {
    if |s| == 0 then ""
    else
      var c := s[0];
      var e :=
        if c == '\\' then "\\\\"
        else if c == q then ['\\', q]
        else if c == '\n' then "\\n"
        else if c == '\r' then "\\r"
        else if c == '\t' then "\\t"
        else if c < ' ' || c as int == 0x7f then ['\\', 'x', HexDigit(c as int / 16), HexDigit(c as int % 16)]
        else [c];
      e + EscapeFor(s[1..], q)
  }

  /** `repr` of a str: single quotes unless the text has a ' and no ". */
  function ReprString(s: string): string {
    var q := if '\'' in s && '"' !in s then '"' else '\'';
    [q] + EscapeFor(s, q) + [q]
  }

  function Repr(v: Json): string
    decreases v, 1
  {
    match v
    case JStr(s) => ReprString(s)
    case _ => Str(v)
  }

  function ReprItems(xs: seq<Json>, ghost whole: Json): string
    requires forall i :: 0 <= i < |xs| ==> xs[i] < whole
    decreases whole, 0, |xs|
  {
    if |xs| == 0 then ""
    else Repr(xs[0]) + (if |xs| == 1 then "" else ", " + ReprItems(xs[1..], whole))
  }

  function ReprFields(fs: seq<(string, Json)>, ghost whole: Json): string
    requires forall i :: 0 <= i < |fs| ==> fs[i].1 < whole
    decreases whole, 0, |fs|
  {
    if |fs| == 0 then ""
    else
      ReprString(fs[0].0) + ": " + Repr(fs[0].1)
      + (if |fs| == 1 then "" else ", " + ReprFields(fs[1..], whole))
  }

  /** Python's `str()` of a value (what an f-string shows). */
  function Str(v: Json): string
    decreases v, 0
  {
    match v
    case JNull => "None"
    case JBool(b) => if b then "True" else "False"
    case JInt(i) => DecimalString(i)
    case JStr(s) => s
    case JArr(xs) => "[" + ReprItems(xs, v) + "]"
    case JObj(fs) =>
      assert forall i :: 0 <= i < |fs| ==> fs[i].1 < v by {
        forall i | 0 <= i < |fs| ensures fs[i].1 < v {
          assert fs[i] in fs;
        }
      }
      "{" + ReprFields(fs, v) + "}"
  }

  /** `str()` of an optional string (None shows as "None"). */
  function OptStr(o: Option<string>): string {
    match o case None => "None" case Some(s) => s
  }

  /** `str(e)` of an exception. */
  function ErrorText(e: PyError): string {
    match e
    case TypeError(m) => m
    case AttributeError(m) => m
    case KeyError(k) => ReprString(k)
    case ValueError(m) => m
    case ZeroDivisionError(m) => m
    case OverflowError(m) => m
  }

  // ---------------------------------------------------------------------
  // The external verifier

  /** What `QWEDLocal.verify_math` / `verify_logic` returns. Its computation is
      foreign: the record is an input to every operation that calls it. */
  datatype QwedResult = QwedResult(
    verified: bool,
    value: real,
    confidence: real,
    error: Option<string>,
    evidence: seq<(string, Json)>)

  /** One call of the external verifier: it returns a result or raises. */
  datatype Call = Returned(result: QwedResult) | Raised(exception: string)
}
