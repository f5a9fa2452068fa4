/**
 * The parts of the PHP runtime that BaseModel's statement building relies on:
 * ordered arrays with string keys, the value kinds `ctype_digit` is applied to,
 * the string built-ins `rtrim` and `strtolower`, and the joined lists and
 * decimal texts the statement-building loops and the model speak about.
 */
module Php {

  // ------------------------------------------------------------------ values

  /** The kinds of PHP value that reach `ctype_digit` in the lookup paths. */
  datatype Mixed = Str(s: string) | Int(i: int) | Array | Null

  predicate IsDigit(c: char) {
    '0' <= c <= '9'
  }

  /** A non-empty string made only of decimal digits. */
  predicate AllDigits(s: string) {
    |s| > 0 && forall i :: 0 <= i < |s| ==> IsDigit(s[i])
  }

  /**
   * `ctype_digit($x)`. A string passes when it is non-empty and all digits. An
   * integer from -128 to 255 is read as the code of a single character (256 is
   * added to a negative one); any other integer is read as its decimal text,
   * which is all digits exactly when it is positive. Arrays and null never pass.
   */
  predicate CtypeDigit(x: Mixed) {
    match x
    case Str(s) => AllDigits(s)
    case Int(n) =>
      if -128 <= n <= 255 then 48 <= (if n < 0 then n + 256 else n) <= 57
      else n > 255
    case Array => false
    case Null => false
  }

  // ----------------------------------------------------------------- strings

  function LowerChar(c: char): char {
    if 'A' <= c <= 'Z' then (c as int + 32) as char else c
  }

  /** `strtolower`, on ASCII letters. */
  function Lower(s: string): (r: string)
    ensures |r| == |s|
    ensures forall i :: 0 <= i < |s| ==> r[i] == LowerChar(s[i])
  {
    seq(|s|, i requires 0 <= i < |s| => LowerChar(s[i]))
  }

  /** The parts with `sep` between neighbours: what a separator loop leaves once `rtrim` drops its last `sep`. */
  function Join(sep: string, parts: seq<string>): string
  {
    if |parts| == 0 then ""
    else if |parts| == 1 then parts[0]
    else Join(sep, parts[..|parts| - 1]) + sep + parts[|parts| - 1]
  }

  /** What a loop that appends `part + sep` for every part has built. */
  function JoinedThen(sep: string, parts: seq<string>): string
  {
    if parts == [] then "" else Join(sep, parts) + sep
  }

  /** Every name with `pre` before it and `post` after it. */
  function Wrap(names: seq<string>, pre: string, post: string): (r: seq<string>)
    ensures |r| == |names|
    ensures forall i :: 0 <= i < |names| ==> r[i] == pre + names[i] + post
  {
    seq(|names|, i requires 0 <= i < |names| => pre + names[i] + post)
  }

  /** `rtrim(s, chars)`: drops every trailing character that is in `chars`. */
  function RTrim(s: string, chars: set<char>): string
  {
    if |s| > 0 && s[|s| - 1] in chars then RTrim(s[..|s| - 1], chars) else s
  }

  function DigitChar(d: int): char
    requires 0 <= d < 10
  {
    ('0' as int + d) as char
  }

  /** The decimal text of a non-negative integer. */
  function Decimal(n: nat): string
  {
    if n < 10 then [DigitChar(n)] else Decimal(n / 10) + [DigitChar(n % 10)]
  }

  /** The decimal text of an integer. */
  function IntString(n: int): string
  {
    if n < 0 then "-" + Decimal(-n) else Decimal(n)
  }

  lemma {:induction false} DecimalIsDigits(n: nat)
    ensures AllDigits(Decimal(n))
  {
    if n >= 10 {
      DecimalIsDigits(n / 10);
      var d := Decimal(n / 10);
      assert forall i :: 0 <= i < |d| ==> (d + [DigitChar(n % 10)])[i] == d[i];
    }
  }

  /** Only the four spellings of `id` lowercase to `id`. */
  lemma LowerIsId(s: string)
    ensures Lower(s) == "id" <==> s in {"id", "iD", "Id", "ID"}
  {
    if Lower(s) == "id" {
      assert |s| == 2;
      assert LowerChar(s[0]) == 'i' && LowerChar(s[1]) == 'd';
      assert s[0] in {'i', 'I'} && s[1] in {'d', 'D'};
      assert s == [s[0], s[1]];
    }
  }

  lemma AppendAssoc(a: string, b: string, c: string)
    ensures (a + b) + c == a + (b + c)
  {
  }

  lemma JoinSnoc(sep: string, parts: seq<string>, p: string)
    ensures Join(sep, parts + [p]) == if parts == [] then p else Join(sep, parts) + sep + p
  {
    assert (parts + [p])[..|parts|] == parts;
  }

  /** Appending `part + sep` to the text a separator loop has built so far. */
  lemma JoinedThenSnoc(sep: string, parts: seq<string>, p: string)
    ensures JoinedThen(sep, parts + [p]) == JoinedThen(sep, parts) + p + sep
  {
    JoinSnoc(sep, parts, p);
  }

  lemma WrapSnoc(names: seq<string>, n: string, pre: string, post: string)
    ensures Wrap(names + [n], pre, post) == Wrap(names, pre, post) + [pre + n + post]
  {
  }

  lemma WrapPlain(names: seq<string>, pre: string)
    ensures forall i :: 0 <= i < |names| ==> Wrap(names, pre, "")[i] == pre + names[i]
  {
    forall i | 0 <= i < |names| ensures Wrap(names, pre, "")[i] == pre + names[i] {
      assert pre + names[i] + "" == pre + names[i];
    }
  }

  /** A joined text ends the way its last part ends. */
  lemma {:induction false} JoinLast(sep: string, parts: seq<string>)
    requires |parts| > 0 && |parts[|parts| - 1]| > 0
    ensures |Join(sep, parts)| > 0
    ensures Join(sep, parts)[|Join(sep, parts)| - 1] == parts[|parts| - 1][|parts[|parts| - 1]| - 1]
  {
  }

  /** A joined text starts the way its first part starts. */
  lemma {:induction false} JoinFirst(sep: string, parts: seq<string>)
    requires |parts| > 0 && |parts[0]| > 0
    ensures |Join(sep, parts)| > 0 && Join(sep, parts)[0] == parts[0][0]
  {
    if |parts| > 1 {
      JoinFirst(sep, parts[..|parts| - 1]);
    }
  }

  /** Trailing characters that are all trimmed do not change what `rtrim` leaves. */
  lemma {:induction false} RTrimDropsTrimmable(x: string, y: string, chars: set<char>)
    requires forall i :: 0 <= i < |y| ==> y[i] in chars
    ensures RTrim(x + y, chars) == RTrim(x, chars)
  {
    if |y| > 0 {
      assert (x + y)[|x + y| - 1] == y[|y| - 1];
      assert (x + y)[..|x + y| - 1] == x + y[..|y| - 1];
      assert y[|y| - 1] in chars;
      RTrimDropsTrimmable(x, y[..|y| - 1], chars);
      assert RTrim(x + y, chars) == RTrim(x + y[..|y| - 1], chars);
    } else {
      assert x + y == x;
    }
  }

  /** `rtrim` of a concatenation only touches the tail, when something of the tail survives it. */
  lemma {:induction false} RTrimConcat(x: string, y: string, chars: set<char>)
    requires RTrim(y, chars) != ""
    ensures RTrim(x + y, chars) == x + RTrim(y, chars)
  {
    if |y| > 0 && y[|y| - 1] in chars {
      assert (x + y)[..|x + y| - 1] == x + y[..|y| - 1];
      RTrimConcat(x, y[..|y| - 1], chars);
    }
  }

  /** `rtrim` never removes a first character that it does not trim. */
  lemma {:induction false} RTrimKeepsFirst(s: string, chars: set<char>)
    requires |s| > 0 && s[0] !in chars
    ensures RTrim(s, chars) != ""
  {
    if s[|s| - 1] in chars {
      RTrimKeepsFirst(s[..|s| - 1], chars);
    }
  }

  // ------------------------------------------------------------ key sequences

  predicate Distinct(ks: seq<string>) {
    forall i, j :: 0 <= i < j < |ks| ==> ks[i] != ks[j]
  }

  lemma DistinctSnoc(ks: seq<string>, k: string)
    requires Distinct(ks) && k !in ks
    ensures Distinct(ks + [k])
  {
  }

  /** The elements of `ks` that occur in `allowed`, in the order of `ks`. */
  function KeysIn(ks: seq<string>, allowed: seq<string>): (r: seq<string>)
    ensures forall k :: k in r <==> k in ks && k in allowed
    ensures Distinct(ks) ==> Distinct(r)
  {
    if ks == [] then []
    else
      var init, last := ks[..|ks| - 1], ks[|ks| - 1];
      assert ks == init + [last];
      var r0 := KeysIn(init, allowed);
      if last in allowed then
        assert Distinct(ks) ==> last !in init && Distinct(init);
        r0 + [last]
      else
        assert Distinct(ks) ==> Distinct(init);
        r0
  }

  lemma KeysInSnoc(ks: seq<string>, c: string, allowed: seq<string>)
    ensures KeysIn(ks + [c], allowed) == if c in allowed then KeysIn(ks, allowed) + [c] else KeysIn(ks, allowed)
  {
    assert (ks + [c])[..|ks|] == ks;
  }

  /** Two kept elements stay in their relative order. */
  lemma {:induction false} KeysInKeepsOrder(ks: seq<string>, allowed: seq<string>, i: nat, j: nat)
    requires i < j < |ks| && ks[i] in allowed && ks[j] in allowed && Distinct(ks)
    ensures exists p, q :: 0 <= p < q < |KeysIn(ks, allowed)| && KeysIn(ks, allowed)[p] == ks[i] && KeysIn(ks, allowed)[q] == ks[j]
  {
    var init := ks[..|ks| - 1];
    assert ks == init + [ks[|ks| - 1]];
    var r0 := KeysIn(init, allowed);
    if j < |ks| - 1 {
      KeysInKeepsOrder(init, allowed, i, j);
      var p, q :| 0 <= p < q < |r0| && r0[p] == ks[i] && r0[q] == ks[j];
      assert KeysIn(ks, allowed)[p] == ks[i] && KeysIn(ks, allowed)[q] == ks[j];
    } else {
      assert ks[i] in init;
      assert ks[i] in r0;
      var p :| 0 <= p < |r0| && r0[p] == ks[i];
      assert KeysIn(ks, allowed) == r0 + [ks[j]];
      assert KeysIn(ks, allowed)[p] == ks[i] && KeysIn(ks, allowed)[|r0|] == ks[j];
    }
  }

  /** The elements of `ks` other than `k`, in order. */
  function Without(ks: seq<string>, k: string): (r: seq<string>)
    ensures forall j :: j in r <==> j in ks && j != k
    ensures Distinct(ks) ==> Distinct(r)
    ensures k !in ks ==> r == ks
  {
    if ks == [] then []
    else
      var init, last := ks[..|ks| - 1], ks[|ks| - 1];
      assert ks == init + [last];
      var r0 := Without(init, k);
      if last != k then
        assert Distinct(ks) ==> last !in init && Distinct(init);
        r0 + [last]
      else
        assert Distinct(ks) ==> Distinct(init);
        r0
  }

  lemma WithoutSnoc(ks: seq<string>, c: string, k: string)
    ensures Without(ks + [c], k) == if c != k then Without(ks, k) + [c] else Without(ks, k)
  {
    assert (ks + [c])[..|ks|] == ks;
  }

  /** Two elements other than `k` stay in their relative order. */
  lemma {:induction false} WithoutKeepsOrder(ks: seq<string>, k: string, i: nat, j: nat)
    requires i < j < |ks| && ks[i] != k && ks[j] != k && Distinct(ks)
    ensures exists p, q :: 0 <= p < q < |Without(ks, k)| && Without(ks, k)[p] == ks[i] && Without(ks, k)[q] == ks[j]
  {
    var init := ks[..|ks| - 1];
    assert ks == init + [ks[|ks| - 1]];
    var r0 := Without(init, k);
    if j < |ks| - 1 {
      WithoutKeepsOrder(init, k, i, j);
      var p, q :| 0 <= p < q < |r0| && r0[p] == ks[i] && r0[q] == ks[j];
      assert Without(ks, k)[p] == ks[i] && Without(ks, k)[q] == ks[j];
    } else {
      assert ks[i] in init;
      assert ks[i] in r0;
      var p :| 0 <= p < |r0| && r0[p] == ks[i];
      assert Without(ks, k) == r0 + [ks[j]];
      assert Without(ks, k)[p] == ks[i] && Without(ks, k)[|r0|] == ks[j];
    }
  }

  // ------------------------------------------------------------------ arrays

  /** Keys in insertion order, and the value stored under each key. */
  datatype OrderedMap<V> = OrderedMap(keys: seq<string>, values: map<string, V>)

  predicate WellFormed<V>(a: OrderedMap<V>) {
    && Distinct(a.keys)
    && (forall k :: k in a.keys ==> k in a.values)
    && (forall k :: k in a.values ==> k in a.keys)
  }

  /**
   * A PHP array with string keys: each key occurs once, in the order it was
   * first assigned. An integer key `n` is its decimal text, which is how PHP
   * itself reads a decimal string key.
   */
  type PhpArray<V> = a: OrderedMap<V> | WellFormed(a) witness OrderedMap([], map[])

  function Empty<V>(): PhpArray<V> {
    OrderedMap([], map[])
  }

  /** `array_key_exists($k, $a)`. */
  predicate HasKey<V>(a: PhpArray<V>, k: string) {
    k in a.values
  }

  /** `$a[$k] = $v`: replaces the value of a key in place, or appends a new key. */
  function Put<V>(a: PhpArray<V>, k: string, v: V): PhpArray<V> {
    if k in a.values then OrderedMap(a.keys, a.values[k := v])
    else
      DistinctSnoc(a.keys, k);
      OrderedMap(a.keys + [k], a.values[k := v])
  }

  /** `unset($a[$k])`. */
  function Unset<V>(a: PhpArray<V>, k: string): (r: PhpArray<V>)
    ensures forall j :: HasKey(r, j) <==> HasKey(a, j) && j != k
    ensures forall j :: HasKey(r, j) ==> HasKey(a, j) && r.values[j] == a.values[j]
  {
    OrderedMap(Without(a.keys, k), a.values - {k})
  }

  /** `array_values($a)`. */
  function Values<V>(a: PhpArray<V>): seq<V> {
    seq(|a.keys|, i requires 0 <= i < |a.keys| => a.values[a.keys[i]])
  }

  /** An array with no keys has no values either. */
  lemma EmptyKeys<V>(a: PhpArray<V>)
    ensures a.keys == [] <==> forall k :: !HasKey(a, k)
  {
    if a.keys != [] {
      assert HasKey(a, a.keys[0]);
    }
  }
}
