/** The small part of PHP's value semantics the endpoints rely on: the values a
    JSON body or a configuration file can produce, `empty()`, the `??` lookup,
    the `(array)` cast, `implode`, string conversion and ASCII lower-casing. */
module Php {

  datatype Option<+T> = None | Some(value: T)

  /** A PHP value. Array keys are strings; an integer key is its decimal text.
      `Arr` is a PHP array (ordered map), `Obj` a `stdClass` as `json_decode`
      produces it for a JSON object. Floats are not modelled. */
  datatype Value =
    | Null
    | Bool(b: bool)
    | Int(i: int)
    | Str(s: string)
    | Arr(entries: seq<(string, Value)>)
    | Obj(props: seq<(string, Value)>)

  type Entries = seq<(string, Value)>

  /** `empty()` on a string: true for "" and for "0". */
  predicate EmptyString(s: string) {
    s == "" || s == "0"
  }

  /** PHP's `empty()`: null, false, 0, "", "0" and the empty array; never an object. */
  predicate Empty(v: Value) {
    match v
    case Null => true
    case Bool(b) => !b
    case Int(i) => i == 0
    case Str(s) => EmptyString(s)
    case Arr(es) => es == []
    case Obj(_) => false
  }

  /** Exactly six values are empty; in particular no object is. */
  lemma EmptyExactly(v: Value)
    ensures Empty(v) <==> v in [Null, Bool(false), Int(0), Str(""), Str("0"), Arr([])]
  {
  }

  /** The keys of an array, in order (`array_keys`). */
  function Keys(es: Entries): (r: seq<string>)
    ensures |r| == |es|
    ensures forall i :: 0 <= i < |es| ==> r[i] == es[i].0
  {
    if es == [] then [] else [es[0].0] + Keys(es[1..])
  }

  /** No key occurs twice: true of every PHP array and every decoded object. */
  predicate UniqueKeys(es: Entries) {
    es == [] || (es[0].0 !in Keys(es[1..]) && UniqueKeys(es[1..]))
  }

  /** `$a[$k] ?? null` on an array: the value stored under `k`, or null. */
  function Get(es: Entries, k: string): (r: Value)
    ensures r != Null ==> (k, r) in es
    ensures (forall i :: 0 <= i < |es| ==> es[i].0 != k) ==> r == Null
    ensures forall i :: 0 <= i < |es| && es[i].0 == k && (forall j :: 0 <= j < i ==> es[j].0 != k)
                        ==> r == es[i].1
  {
    if es == [] then Null
    else if es[0].0 == k then es[0].1
    else Get(es[1..], k)
  }

  /** `$v[$k] ?? null` on any value: an array gives the value stored under `k`
      (or null), an object raises an Error (a `stdClass` cannot be used as an
      array), modelled as None, and any other value gives null. */
  function Index(v: Value, k: string): (r: Option<Value>)
    ensures r.None? <==> v.Obj?
    ensures v.Arr? ==> r == Some(Get(v.entries, k))
    ensures r.Some? && r.value != Null ==> v.Arr? && (k, r.value) in v.entries
  {
    match v
    case Arr(es) => Some(Get(es, k))
    case Obj(_) => None
    case _ => Some(Null)
  }

  /** `$v->k ?? null` on any value: only an object has properties. */
  function Property(v: Value, k: string): (r: Value)
    ensures v.Obj? ==> r == Get(v.props, k)
    ensures !v.Obj? ==> r == Null
  {
    if v.Obj? then Get(v.props, k) else Null
  }

  /** The `(array)` cast: an array stays, an object gives its properties,
      null gives the empty array and any other scalar becomes `[0 => v]`. */
  function ToArray(v: Value): Entries
  {
    match v
    case Null => []
    case Arr(es) => es
    case Obj(ps) => ps
    case _ => [("0", v)]
  }

  /** The array that results from `unset($a[$k])`. */
  function Unset(es: Entries, k: string): (r: Entries)
    ensures k !in Keys(r)
    ensures forall p :: p in r <==> p in es && p.0 != k
    ensures IsSubsequence(r, es)
  {
    if es == [] then []
    else if es[0].0 == k then Unset(es[1..], k)
    else
      var r := [es[0]] + Unset(es[1..], k);
      assert r[1..] == Unset(es[1..], k);
      r
  }

  function DigitChar(d: nat): (c: char)
    requires d < 10
  {
    ('0' as int + d) as char
  }

  predicate IsDigit(c: char) {
    '0' <= c <= '9'
  }

  function DigitValue(c: char): nat
    requires IsDigit(c)
  {
    c as int - '0' as int
  }

  /** The number a string of decimal digits spells. */
  function DecimalValue(s: string): nat
    requires forall i :: 0 <= i < |s| ==> IsDigit(s[i])
  {
    if s == [] then 0 else 10 * DecimalValue(s[..|s| - 1]) + DigitValue(s[|s| - 1])
  }

  /** Decimal text of a natural number: digits only, no leading zero, and it
      reads back as the number. */
  function NatToString(n: nat): (r: string)
    ensures |r| >= 1
    ensures forall i :: 0 <= i < |r| ==> IsDigit(r[i])
    ensures r[0] == '0' ==> r == "0"
    ensures DecimalValue(r) == n
    decreases n
  {
    if n < 10 then [DigitChar(n)]
    else
      var r := NatToString(n / 10) + [DigitChar(n % 10)];
      assert r[..|r| - 1] == NatToString(n / 10);
      r
  }

  /** Decimal text of an integer, as PHP converts an `int` to a string: a minus
      sign exactly for a negative number, then the digits of its magnitude. */
  function IntToString(i: int): (r: string)
    ensures |r| >= 1
    ensures (r[0] == '-') <==> i < 0
    ensures var digits := if i < 0 then r[1..] else r;
      && |digits| >= 1
      && (forall k :: 0 <= k < |digits| ==> IsDigit(digits[k]))
      && DecimalValue(digits) == (if i < 0 then -i else i)
      && (digits[0] == '0' ==> digits == "0")
  {
    if i < 0 then
      var r := "-" + NatToString(-i);
      assert r[1..] == NatToString(-i);
      r
    else NatToString(i)
  }

  /** String interpolation (`"$v"`): an array reads as "Array"; an object
      without `__toString` raises an Error, modelled as None. */
  function Interpolate(v: Value): (r: Option<string>)
    ensures r.None? <==> v.Obj?
    ensures v.Str? ==> r == Some(v.s)
    ensures v.Int? ==> r == Some(IntToString(v.i))
  {
    match v
    case Null => Some("")
    case Bool(b) => Some(if b then "1" else "")
    case Int(i) => Some(IntToString(i))
    case Str(s) => Some(s)
    case Arr(_) => Some("Array")
    case Obj(_) => None
  }

  /** Coercion of an argument to a `string` parameter of a built-in function
      (non-strict mode): scalars convert, an array or object raises a TypeError,
      modelled as None. */
  function StringArgument(v: Value): (r: Option<string>)
    ensures r.None? <==> (v.Arr? || v.Obj?)
    ensures v.Str? ==> r == Some(v.s)
    ensures v.Int? ==> r == Some(IntToString(v.i))
  {
    match v
    case Null => Some("")
    case Bool(b) => Some(if b then "1" else "")
    case Int(i) => Some(IntToString(i))
    case Str(s) => Some(s)
    case _ => None
  }

  /** `implode(sep, parts)`. */
  function Implode(sep: string, parts: seq<string>): string
  {
    if parts == [] then ""
    else if |parts| == 1 then parts[0]
    else parts[0] + sep + Implode(sep, parts[1..])
  }

  /** Every part appears in order in the imploded text, so the text is at least
      as long as any single part. */
  lemma {:induction false} ImplodeLength(sep: string, parts: seq<string>)
    ensures forall i :: 0 <= i < |parts| ==> |Implode(sep, parts)| >= |parts[i]|
    ensures |parts| > 0 ==> Implode(sep, parts)[..|parts[0]|] == parts[0]
  {
    if |parts| > 1 {
      ImplodeLength(sep, parts[1..]);
      assert forall i :: 1 <= i < |parts| ==> parts[i] == parts[1..][i - 1];
    }
  }

  /** Where part `i` starts in the imploded text: after every earlier part and
      its separator. */
  function PartOffset(sep: string, parts: seq<string>, i: nat): nat
    requires i <= |parts|
  {
    if i == 0 then 0 else PartOffset(sep, parts, i - 1) + |parts[i - 1]| + |sep|
  }

  /** Dropping the first part shifts every later offset back by that part and
      one separator. */
  lemma {:induction false} PartOffsetShift(sep: string, parts: seq<string>, i: nat)
    requires 1 <= i <= |parts|
    ensures PartOffset(sep, parts, i) == |parts[0]| + |sep| + PartOffset(sep, parts[1..], i - 1)
  {
    if i > 1 {
      PartOffsetShift(sep, parts, i - 1);
    }
  }

  /** The imploded text is exactly as long as the parts and the separators
      between them. */
  lemma {:induction false} ImplodeSize(sep: string, parts: seq<string>)
    requires parts != []
    ensures |Implode(sep, parts)| == PartOffset(sep, parts, |parts| - 1) + |parts[|parts| - 1]|
  {
    if |parts| > 1 {
      ImplodeSize(sep, parts[1..]);
      PartOffsetShift(sep, parts, |parts| - 1);
    }
  }

  /** Part `i` sits at `PartOffset(i)`: the parts appear in order. */
  lemma {:induction false} ImplodePartAt(sep: string, parts: seq<string>, i: nat)
    requires i < |parts|
    ensures OccursAt(Implode(sep, parts), parts[i], PartOffset(sep, parts, i))
  {
    if |parts| == 1 {
      assert Implode(sep, parts)[0..|parts[0]|] == parts[0];
    } else if i == 0 {
      SplitThree(parts[0], sep, Implode(sep, parts[1..]));
    } else {
      ImplodePartAt(sep, parts[1..], i - 1);
      ImplodeStep(sep, parts, i, parts[i], 0);
    }
  }

  /** A separator follows every part but the last. */
  lemma {:induction false} ImplodeSeparatorAt(sep: string, parts: seq<string>, i: nat)
    requires i < |parts| - 1
    ensures OccursAt(Implode(sep, parts), sep, PartOffset(sep, parts, i) + |parts[i]|)
  {
    if i == 0 {
      SplitThree(parts[0], sep, Implode(sep, parts[1..]));
    } else {
      ImplodeSeparatorAt(sep, parts[1..], i - 1);
      ImplodeStep(sep, parts, i, sep, |parts[i]|);
    }
  }

  /** What occurs at offset `d` past part `i - 1` of the later parts occurs at
      offset `d` past part `i` of all parts. */
  lemma ImplodeStep(sep: string, parts: seq<string>, i: nat, s: string, d: nat)
    requires 1 <= i < |parts|
    requires OccursAt(Implode(sep, parts[1..]), s, PartOffset(sep, parts[1..], i - 1) + d)
    ensures OccursAt(Implode(sep, parts), s, PartOffset(sep, parts, i) + d)
  {
    var shift := |parts[0]| + |sep|;
    SplitThree(parts[0], sep, Implode(sep, parts[1..]));
    PartOffsetShift(sep, parts, i);
    OccursAfter(Implode(sep, parts), shift, s, PartOffset(sep, parts[1..], i - 1) + d);
  }

  /** A concatenation splits back into its two parts. */
  lemma SplitAt(a: string, b: string)
    ensures (a + b)[..|a|] == a && (a + b)[|a|..] == b
  {
  }

  /** A three-part concatenation splits back into its parts. */
  lemma SplitThree(a: string, b: string, c: string)
    ensures (a + b + c)[..|a|] == a
    ensures (a + b + c)[|a|..|a| + |b|] == b
    ensures (a + b + c)[|a| + |b|..] == c
  {
  }

  /** An occurrence inside an occurrence is an occurrence in the whole text. */
  lemma OccursWithin(text: string, outer: string, p: int, s: string, o: int)
    requires OccursAt(text, outer, p) && OccursAt(outer, s, o)
    ensures OccursAt(text, s, p + o)
  {
    forall k | 0 <= k < |s|
      ensures text[p + o + k] == s[k]
    {
      assert text[p..p + |outer|][o + k] == outer[o + k];
      assert outer[o..o + |s|][k] == s[k];
    }
    assert text[p + o..p + o + |s|] == s;
  }

  /** An occurrence in a suffix is an occurrence in the whole text, shifted. */
  lemma OccursAfter(text: string, shift: nat, s: string, o: int)
    requires shift <= |text| && OccursAt(text[shift..], s, o)
    ensures OccursAt(text, s, shift + o)
  {
    assert text[shift + o..shift + o + |s|] == text[shift..][o..o + |s|];
  }

  /** When every part is non-empty, `implode` gives the empty string exactly
      when there are no parts. */
  lemma ImplodeEmpty(sep: string, parts: seq<string>)
    requires forall i :: 0 <= i < |parts| ==> parts[i] != ""
    ensures Implode(sep, parts) == "" <==> parts == []
  {
    if parts != [] {
      ImplodeLength(sep, parts);
      assert |Implode(sep, parts)| >= |parts[0]| > 0;
    }
  }

  predicate IsUpper(c: char) {
    'A' <= c <= 'Z'
  }

  /** ASCII lower-casing, as `array_change_key_case(..., CASE_LOWER)` applies to keys. */
  function LowerAscii(s: string): (r: string)
    ensures |r| == |s|
    ensures forall i :: 0 <= i < |s| ==> r[i] == if IsUpper(s[i]) then (s[i] as int + 32) as char else s[i]
  {
    if s == [] then []
    else [if IsUpper(s[0]) then (s[0] as int + 32) as char else s[0]] + LowerAscii(s[1..])
  }

  /** Lower-casing is idempotent: lower-casing a lower-cased name changes nothing. */
  lemma LowerAsciiIdempotent(s: string)
    ensures LowerAscii(LowerAscii(s)) == LowerAscii(s)
  {
  }

  /** `b` occurs in `a` with its order kept (an order-preserving subsequence). */
  predicate IsSubsequence<T(==)>(b: seq<T>, a: seq<T>)
    decreases |a|
  {
    if b == [] then true
    else if a == [] then false
    else (a[0] == b[0] && IsSubsequence(b[1..], a[1..])) || IsSubsequence(b, a[1..])
  }

  /** `s` occurs in `text` starting at position `i`. */
  predicate OccursAt(text: string, s: string, i: int) {
    0 <= i <= |text| - |s| && text[i..i + |s|] == s
  }

  /** `s` occurs somewhere inside `text`. */
  predicate Contains(text: string, s: string) {
    exists i :: 0 <= i <= |text| - |s| && OccursAt(text, s, i)
  }
}
