/** Shared vocabulary: identifiers, optional values, stored documents, route replies,
    request fields, and the string helpers the routes apply to request fields
    (`replace(/\D/g, '')`, `trim()`, `toUpperCase()`, decimal numerals). */
module Basics {

  /** A document identifier (a MongoDB ObjectId). */
  type Id = nat

  datatype Option<T> = None | Some(value: T)

  /** A stored document: the identifier the store gave it and its fields. */
  datatype Doc<T> = Doc(id: Id, val: T)

  /** What a route answers: a payload, or an HTTP status code with the error text it sends.
      Routes that answer with a flash message and a redirect use code 302. */
  datatype Result<T> = Ok(value: T) | Err(code: nat, message: string)

  /** A request field that is parsed by `parseFloat`, `parseInt` or `new Date`: absent
      (undefined), blank (the empty string or null; a route that trims the field first also
      counts a text of spaces as blank), a text the parser accepts (with the value it gives),
      or a non-blank text it rejects (NaN, Invalid Date). */
  datatype Parsed<T> = Absent | Blank | Value(v: T) | Invalid

  /** JavaScript truthiness of a parsed field: only non-empty texts are truthy. */
  predicate Filled<T>(p: Parsed<T>) { p.Value? || p.Invalid? }

  /** `p ? parse(p) : d`: a falsy field gives `d`; a rejected text gives NaN or an invalid
      date, which no numeric or date field of a document accepts (None). */
  function ParsedOr<T>(p: Parsed<T>, d: T): (r: Option<T>)
    ensures r.None? <==> p.Invalid?
    ensures p.Value? ==> r == Some(p.v)
    ensures !Filled(p) ==> r == Some(d)
  {
    match p
    case Value(v) => Some(v)
    case Invalid => None
    case _ => Some(d)
  }

  /** `p !== undefined ? parse(p) : d`: only an absent field keeps `d`; a blank one parses
      to NaN like a rejected text. */
  function ParsedIfSent<T>(p: Parsed<T>, d: T): (r: Option<T>)
    ensures r.None? <==> p.Blank? || p.Invalid?
    ensures p.Value? ==> r == Some(p.v)
    ensures p.Absent? ==> r == Some(d)
  {
    match p
    case Absent => Some(d)
    case Value(v) => Some(v)
    case _ => None
  }

  /** `p ? new Date(p) : d` for a date field that may be null. */
  function DateOr<T>(p: Parsed<T>, d: Option<T>): (r: Option<Option<T>>)
    ensures r.None? <==> p.Invalid?
    ensures p.Value? ==> r == Some(Some(p.v))
    ensures !Filled(p) ==> r == Some(d)
  {
    match p
    case Value(v) => Some(Some(v))
    case Invalid => None
    case _ => Some(d)
  }

  /** JavaScript truthiness of a text field: present and not the empty string. */
  predicate Given(t: Option<string>) { t.Some? && t.value != "" }

  /** `t || d` on a text field. */
  function OrElse(t: Option<string>, d: string): (r: string)
    ensures Given(t) ==> r == t.value
    ensures !Given(t) ==> r == d
  {
    if Given(t) then t.value else d
  }

  /** `Array.prototype.indexOf`: the first position of `x` in `s`, or -1. */
  function IndexOf<T(==)>(s: seq<T>, x: T): (r: int)
    ensures -1 <= r < |s|
    ensures r == -1 <==> x !in s
    ensures r >= 0 ==> s[r] == x && x !in s[..r]
  {
    if s == [] then -1
    else if s[0] == x then 0
    else
      var k := IndexOf(s[1..], x);
      assert k >= 0 ==> s[..k + 1] == [s[0]] + s[1..][..k];
      if k == -1 then -1 else k + 1
  }

  // ---------------------------------------------------------------- characters

  predicate IsDigit(c: char) { '0' <= c <= '9' }

  predicate IsUpper(c: char) { 'A' <= c <= 'Z' }

  predicate IsLower(c: char) { 'a' <= c <= 'z' }

  /** The characters `String.prototype.trim` removes: the white space and line terminators
      of ECMAScript (tab, line feed, vertical tab, form feed, carriage return, space,
      no-break space, the Unicode space separators, the line and paragraph separators, and
      the byte order mark). */
  predicate IsSpace(c: char)
  {
    || '\U{9}' <= c <= '\U{D}'
    || c == ' ' || c == '\U{A0}' || c == '\U{1680}'
    || '\U{2000}' <= c <= '\U{200A}'
    || c == '\U{2028}' || c == '\U{2029}' || c == '\U{202F}' || c == '\U{205F}'
    || c == '\U{3000}' || c == '\U{FEFF}'
  }

  /** `s.length` of a JavaScript string: its UTF-16 code units, one for a character of the
      Basic Multilingual Plane and two (a surrogate pair) for a character above it. */
  function Utf16Length(s: string): (r: nat)
    ensures |s| <= r <= 2 * |s|
    ensures r == |s| <==> forall i :: 0 <= i < |s| ==> s[i] as int <= 0xFFFF
  {
    if s == [] then 0
    else
      var rest := Utf16Length(s[1..]);
      assert forall i :: 1 <= i < |s| ==> s[i] == s[1..][i - 1];
      (if s[0] as int <= 0xFFFF then 1 else 2) + rest
  }

  /** Characters above the Basic Multilingual Plane count twice: three of them make a
      length of six. */
  lemma AstralCountsTwice(c: char)
    requires c as int > 0xFFFF
    ensures Utf16Length([c, c, c]) == 6
  {
    assert [c, c, c][1..] == [c, c];
    assert [c, c][1..] == [c];
    assert [c][1..] == [];
  }

  predicate AllDigits(s: string) { forall i :: 0 <= i < |s| ==> IsDigit(s[i]) }

  /** `s.replace(/\D/g, '')`: the digits of `s`, in order. */
  function DigitsOnly(s: string): (r: string)
    ensures AllDigits(r)
    ensures |r| <= |s|
    ensures forall c :: c in r <==> c in s && IsDigit(c)
  {
    if s == [] then []
    else if IsDigit(s[0]) then [s[0]] + DigitsOnly(s[1..])
    else DigitsOnly(s[1..])
  }

  /** Stripping the non-digits works character by character: a digit is kept, anything
      else is dropped. */
  lemma DigitsOnlyChar(c: char)
    ensures DigitsOnly([c]) == if IsDigit(c) then [c] else []
  {
    assert [c][1..] == [];
  }

  /** The digits of a concatenation are the digits of its parts, in order. */
  lemma {:induction false} DigitsOnlyAppend(a: string, b: string)
    ensures DigitsOnly(a + b) == DigitsOnly(a) + DigitsOnly(b)
  {
    if a != [] {
      assert (a + b)[1..] == a[1..] + b;
      DigitsOnlyAppend(a[1..], b);
    } else {
      assert a + b == b;
    }
  }

  /** Stripping the non-digits of a digits-only text changes nothing. */
  lemma {:induction false} DigitsOnlyKeepsDigits(s: string)
    requires AllDigits(s)
    ensures DigitsOnly(s) == s
  {
    if s != [] {
      DigitsOnlyKeepsDigits(s[1..]);
    }
  }

  /** A text without a digit has nothing left once its non-digits are stripped. */
  lemma {:induction false} NoDigitsNothingLeft(s: string)
    requires forall i :: 0 <= i < |s| ==> !IsDigit(s[i])
    ensures DigitsOnly(s) == []
  {
    if s != [] {
      NoDigitsNothingLeft(s[1..]);
    }
  }

  /** `s.replace(/[^a-zA-Z]/g, '')`: the ASCII letters of `s`, in order. */
  function LettersOnly(s: string): (r: string)
    ensures |r| <= |s|
    ensures forall i :: 0 <= i < |r| ==> IsUpper(r[i]) || IsLower(r[i])
  {
    if s == [] then []
    else if IsUpper(s[0]) || IsLower(s[0]) then [s[0]] + LettersOnly(s[1..])
    else LettersOnly(s[1..])
  }

  function UpperChar(c: char): char
  {
    if IsLower(c) then (c as int - 'a' as int + 'A' as int) as char else c
  }

  /** `toUpperCase()` on ASCII letters; every other character is kept. */
  function ToUpper(s: string): (r: string)
    ensures |r| == |s|
    ensures forall i :: 0 <= i < |s| ==> r[i] == UpperChar(s[i])
  {
    seq(|s|, i requires 0 <= i < |s| => UpperChar(s[i]))
  }

  /** The first position at or after `i` that holds no white space (`|s|` if none). */
  function SkipSpaces(s: string, i: nat): (k: nat)
    requires i <= |s|
    ensures i <= k <= |s|
    ensures forall m :: i <= m < k ==> IsSpace(s[m])
    ensures k == |s| || !IsSpace(s[k])
    decreases |s| - i
  {
    if i < |s| && IsSpace(s[i]) then SkipSpaces(s, i + 1) else i
  }

  /** The end of `s[lo..j]` once its trailing white space is cut off. */
  function BackSpaces(s: string, lo: nat, j: nat): (k: nat)
    requires lo <= j <= |s|
    ensures lo <= k <= j
    ensures forall m :: k <= m < j ==> IsSpace(s[m])
    ensures k == lo || !IsSpace(s[k - 1])
  {
    if lo < j && IsSpace(s[j - 1]) then BackSpaces(s, lo, j - 1) else j
  }

  /** `s.trim()`: the window of `s` left once every leading and trailing white-space
      character is cut away. */
  function Trim(s: string): (r: string)
    ensures r == [] || (!IsSpace(r[0]) && !IsSpace(r[|r| - 1]))
    ensures exists i, j :: && 0 <= i <= j <= |s| && r == s[i..j]
                           && (forall k :: 0 <= k < i ==> IsSpace(s[k]))
                           && (forall k :: j <= k < |s| ==> IsSpace(s[k]))
  {
    var i := SkipSpaces(s, 0);
    s[i..BackSpaces(s, i, |s|)]
  }

  /** A text that neither starts nor ends with white space is its own trim. */
  lemma TrimKeeps(s: string)
    requires s == [] || (!IsSpace(s[0]) && !IsSpace(s[|s| - 1]))
    ensures Trim(s) == s
  {
    if s != [] {
      assert SkipSpaces(s, 0) == 0;
      assert BackSpaces(s, 0, |s|) == |s|;
    }
  }

  /** A text trims to nothing exactly when every character of it is white space. */
  lemma TrimEmptyIffBlank(s: string)
    ensures Trim(s) == [] <==> forall i :: 0 <= i < |s| ==> IsSpace(s[i])
  {
    var i := SkipSpaces(s, 0);
    if i < |s| {
      assert BackSpaces(s, i, |s|) > i;
    }
  }

  /** `sub` occurs in `s` as a contiguous piece (an unanchored regular expression made of
      digits only, as the phone searches build it). */
  predicate Contains(s: string, sub: string)
  {
    exists i :: 0 <= i <= |s| - |sub| && OccursAt(s, sub, i)
  }

  predicate OccursAt(s: string, sub: string, i: nat)
    requires i <= |s| - |sub|
  {
    s[i..i + |sub|] == sub
  }

  // ---------------------------------------------------------------- decimal numerals

  function DigitChar(d: nat): (c: char)
    requires d < 10
    ensures IsDigit(c)
  {
    ('0' as int + d) as char
  }

  /** `parseInt(s, 10)` on a text made only of digits (leading zeros allowed). */
  function DecimalValue(s: string): nat
    requires AllDigits(s)
  {
    if s == [] then 0 else DecimalValue(s[..|s| - 1]) * 10 + (s[|s| - 1] as int - '0' as int)
  }

  /** `n.toString()`: the decimal numeral of `n`, without leading zeros. */
  function Decimal(n: nat): (s: string)
    ensures |s| >= 1 && AllDigits(s)
  {
    if n < 10 then [DigitChar(n)] else Decimal(n / 10) + [DigitChar(n % 10)]
  }

  /** Reading back a numeral gives the number it was printed from. */
  lemma {:induction false} DecimalRoundTrip(n: nat)
    ensures DecimalValue(Decimal(n)) == n
  {
    if n >= 10 {
      DecimalRoundTrip(n / 10);
      var s := Decimal(n);
      assert s[..|s| - 1] == Decimal(n / 10);
    }
  }

  /** Different numbers print differently. */
  lemma DecimalInjective(m: nat, n: nat)
    requires Decimal(m) == Decimal(n)
    ensures m == n
  {
    DecimalRoundTrip(m);
    DecimalRoundTrip(n);
  }

  /** The number of characters of the numeral of a number below 1000. */
  lemma {:induction false} DecimalWidth(n: nat)
    ensures n < 10 ==> |Decimal(n)| == 1
    ensures 10 <= n < 100 ==> |Decimal(n)| == 2
    ensures 100 <= n < 1000 ==> |Decimal(n)| == 3
  {
    if n >= 10 {
      DecimalWidth(n / 10);
    }
  }

  /** `str.padStart(3, '0')` for a numeral of at most three digits. */
  function PadStart3(s: string): (r: string)
    requires |s| <= 3
    ensures |r| == 3 && r[3 - |s|..] == s
    ensures forall i :: 0 <= i < 3 - |s| ==> r[i] == '0'
  {
    seq(3 - |s|, _ => '0') + s
  }
}
