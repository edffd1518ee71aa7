/** The JavaScript string primitives the command relies on: `trim`,
    `join(" ")`, ASCII case folding, and `parseInt(_, 10)`. */
module Text {

  /** ECMAScript WhiteSpace and LineTerminator code points: the characters
      that `String.prototype.trim` and `parseInt` skip. */
  predicate IsWhitespace(c: char) {
    || ('\t' <= c <= '\r')                    // tab, line feed, vertical tab, form feed, carriage return
    || c == ' ' || c == '\U{00A0}' || c == '\U{1680}'
    || ('\U{2000}' <= c <= '\U{200A}')
    || c == '\U{2028}' || c == '\U{2029}' || c == '\U{202F}' || c == '\U{205F}'
    || c == '\U{3000}' || c == '\U{FEFF}'
  }

  predicate AllWhitespace(s: string) {
    forall i :: 0 <= i < |s| ==> IsWhitespace(s[i])
  }

  /** The number of whitespace characters `s` starts with. */
  function LeadingSpace(s: string): (n: nat)
    ensures n <= |s|
    ensures forall k :: 0 <= k < n ==> IsWhitespace(s[k])
    ensures n == |s| || !IsWhitespace(s[n])
  {
    if s != [] && IsWhitespace(s[0]) then 1 + LeadingSpace(s[1..]) else 0
  }

  /** The number of whitespace characters `s` ends with. */
  function TrailingSpace(s: string): (n: nat)
    ensures n <= |s|
    ensures forall k :: |s| - n <= k < |s| ==> IsWhitespace(s[k])
    ensures n == |s| || !IsWhitespace(s[|s| - 1 - n])
  {
    if s != [] && IsWhitespace(s[|s| - 1]) then 1 + TrailingSpace(s[..|s| - 1]) else 0
  }

  /** `s` with its leading whitespace removed. */
  function TrimStart(s: string): (r: string)
    ensures r == [] || !IsWhitespace(r[0])
  {
    s[LeadingSpace(s)..]
  }

  /** `String.prototype.trim`: the infix of `s` that neither starts nor ends
      with whitespace, with nothing but whitespace cut off either end. */
  function Trim(s: string): (r: string)
    ensures r == [] <==> AllWhitespace(s)
    ensures r == [] || (!IsWhitespace(r[0]) && !IsWhitespace(r[|r| - 1]))
    ensures var i := LeadingSpace(s);
      && i + |r| <= |s| && r == s[i..i + |r|]
      && (forall k :: 0 <= k < i ==> IsWhitespace(s[k]))
      && (forall k :: i + |r| <= k < |s| ==> IsWhitespace(s[k]))
  {
    var i := LeadingSpace(s);
    if i == |s| then []
    else
      var n := TrailingSpace(s);
      s[i..|s| - n]
  }

  /** Text with no whitespace at either end is left alone by `trim`. */
  lemma TrimKeepsTrimmed(s: string)
    requires s == [] || (!IsWhitespace(s[0]) && !IsWhitespace(s[|s| - 1]))
    ensures Trim(s) == s
  {
    assert LeadingSpace(s) == 0;
    assert TrailingSpace(s) == 0;
  }

  /** `trim` removes exactly the whitespace padding around a word that
      neither starts nor ends with whitespace. */
  lemma TrimPadding(pre: string, w: string, post: string)
    requires AllWhitespace(pre) && AllWhitespace(post)
    requires w != [] && !IsWhitespace(w[0]) && !IsWhitespace(w[|w| - 1])
    ensures Trim(pre + w + post) == w
  {
    var s := pre + w + post;
    assert s[|pre|] == w[0];
    assert s[|pre| + |w| - 1] == w[|w| - 1];
    assert forall k :: 0 <= k < |pre| ==> s[k] == pre[k];
    assert s[|pre|..|s| - |post|] == w;
  }

  /** `Array.prototype.join(" ")`. */
  function JoinSpaces(parts: seq<string>): (r: string)
    ensures |parts| == 0 ==> r == []
    ensures |parts| == 1 ==> r == parts[0]
    ensures |parts| > 0 ==> |parts[0]| <= |r| && r[..|parts[0]|] == parts[0]
  {
    if |parts| == 0 then ""
    else if |parts| == 1 then parts[0]
    else parts[0] + " " + JoinSpaces(parts[1..])
  }

  /** Joining two non-empty runs of words is joining each and putting one
      space between them: the words keep their order and every gap is a
      single space. */
  lemma {:induction false} JoinSpacesAppend(a: seq<string>, b: seq<string>)
    requires a != [] && b != []
    ensures JoinSpaces(a + b) == JoinSpaces(a) + " " + JoinSpaces(b)
  {
    if |a| == 1 {
      assert (a + b)[1..] == b;
    } else {
      assert (a + b)[1..] == a[1..] + b;
      JoinSpacesAppend(a[1..], b);
    }
  }

  /** The joined string is blank exactly when every part is blank, since the
      separator itself is whitespace. */
  lemma {:induction false} JoinBlankIff(parts: seq<string>)
    ensures AllWhitespace(JoinSpaces(parts)) <==> forall k :: 0 <= k < |parts| ==> AllWhitespace(parts[k])
  {
    if |parts| > 1 {
      JoinBlankIff(parts[1..]);
      var rest := JoinSpaces(parts[1..]);
      var j := parts[0] + " " + rest;
      assert JoinSpaces(parts) == j;
      if AllWhitespace(j) {
        assert forall k :: 0 <= k < |parts[0]| ==> j[k] == parts[0][k];
        assert forall k :: 0 <= k < |rest| ==> j[|parts[0]| + 1 + k] == rest[k];
        forall k | 0 <= k < |parts| ensures AllWhitespace(parts[k]) {
          if k > 0 { assert parts[k] == parts[1..][k - 1]; }
        }
      } else {
        var k :| 0 <= k < |j| && !IsWhitespace(j[k]);
        if k < |parts[0]| {
          assert j[k] == parts[0][k];
        } else {
          assert k > |parts[0]|;
          assert j[k] == rest[k - |parts[0]| - 1];
          assert !AllWhitespace(rest);
          var m :| 0 <= m < |parts[1..]| && !AllWhitespace(parts[1..][m]);
          assert parts[m + 1] == parts[1..][m];
        }
      }
    }
  }

  function LowerAscii(c: char): char {
    if 'A' <= c <= 'Z' then (c as int + 32) as char else c
  }

  /** `toLowerCase` on the ASCII letters; other characters are kept. */
  function ToLowerAscii(s: string): (r: string)
    ensures |r| == |s| && forall i :: 0 <= i < |s| ==> r[i] == LowerAscii(s[i])
  {
    if s == [] then [] else [LowerAscii(s[0])] + ToLowerAscii(s[1..])
  }

  predicate IsDigit(c: char) {
    '0' <= c <= '9'
  }

  predicate AllDigits(s: string) {
    forall i :: 0 <= i < |s| ==> IsDigit(s[i])
  }

  /** The value of a string of decimal digits, most significant first;
      leading zeros are allowed and the empty string is 0. */
  function DigitsValue(ds: string): nat
    requires AllDigits(ds)
  {
    if ds == [] then 0
    else DigitsValue(ds[..|ds| - 1]) * 10 + (ds[|ds| - 1] as int - '0' as int)
  }

  /** The decimal numeral of `n` without leading zeros. */
  function ShowNat(n: nat): (r: string)
    ensures |r| > 0 && AllDigits(r)
    ensures |r| > 1 ==> r[0] != '0'
  {
    var d := ((n % 10) + '0' as int) as char;
    if n < 10 then [d] else ShowNat(n / 10) + [d]
  }

  /** Reading back a numeral gives its number. */
  lemma {:induction false} DigitsValueShowNat(n: nat)
    ensures DigitsValue(ShowNat(n)) == n
  {
    if n >= 10 {
      var s := ShowNat(n);
      DigitsValueShowNat(n / 10);
      assert s[..|s| - 1] == ShowNat(n / 10);
    }
  }

  /** Leading zeros do not change the value: `parseInt("007", 10)` is 7. */
  lemma {:induction false} LeadingZeroIgnored(ds: string)
    requires AllDigits(ds)
    ensures AllDigits("0" + ds) && DigitsValue("0" + ds) == DigitsValue(ds)
  {
    var z := "0" + ds;
    if ds != [] {
      assert z[..|z| - 1] == "0" + ds[..|ds| - 1];
      LeadingZeroIgnored(ds[..|ds| - 1]);
    }
  }

  /** Any run of leading zeros leaves the value read unchanged. */
  lemma {:induction false} LeadingZerosIgnored(zeros: nat, ds: string)
    requires AllDigits(ds)
    ensures AllDigits(seq(zeros, _ => '0') + ds)
    ensures DigitsValue(seq(zeros, _ => '0') + ds) == DigitsValue(ds)
  {
    if zeros == 0 {
      assert seq(zeros, _ => '0') + ds == ds;
    } else {
      LeadingZerosIgnored(zeros - 1, ds);
      var tail := seq(zeros - 1, _ => '0') + ds;
      LeadingZeroIgnored(tail);
      assert seq(zeros, _ => '0') + ds == "0" + tail;
    }
  }

  /** The longest prefix of `s` made of decimal digits. */
  function DigitPrefix(s: string): (r: string)
    ensures |r| <= |s| && r == s[..|r|] && AllDigits(r)
    ensures |r| == |s| || !IsDigit(s[|r|])
  {
    if s != [] && IsDigit(s[0]) then [s[0]] + DigitPrefix(s[1..]) else []
  }

  datatype Parsed = NaN | Num(value: int)

  /** `parseInt(s, 10)`: skip leading whitespace, take an optional sign, then
      the longest run of decimal digits; no digits gives NaN. */
  function ParseInt(s: string): (r: Parsed)
    ensures TrimStart(s) == [] ==> r == NaN
    ensures r.Num? && r.value < 0 ==> TrimStart(s)[0] == '-'
  {
    var t := TrimStart(s);
    var signed := |t| > 0 && (t[0] == '-' || t[0] == '+');
    var body := if signed then t[1..] else t;
    var ds := DigitPrefix(body);
    if ds == [] then NaN
    else if signed && t[0] == '-' then Num(-(DigitsValue(ds) as int))
    else Num(DigitsValue(ds))
  }

  /** A numeral followed by anything that does not continue it parses to its
      number, as `parseInt("12abc", 10)` gives 12. */
  lemma ParseIntNumeral(n: nat, rest: string)
    requires rest == [] || !IsDigit(rest[0])
    ensures ParseInt(ShowNat(n) + rest) == Num(n)
  {
    var s := ShowNat(n) + rest;
    assert s[0] == ShowNat(n)[0];
    assert TrimStart(s) == s;
    DigitPrefixOf(ShowNat(n), rest);
    DigitsValueShowNat(n);
  }

  /** A sign before a numeral is read as its sign: `parseInt("+3", 10)` is 3
      and `parseInt("-3", 10)` is -3. */
  lemma ParseIntSigned(sign: char, n: nat, rest: string)
    requires sign == '+' || sign == '-'
    requires rest == [] || !IsDigit(rest[0])
    ensures ParseInt([sign] + ShowNat(n) + rest) == Num(if sign == '-' then -(n as int) else n as int)
  {
    var s := [sign] + ShowNat(n) + rest;
    assert s[0] == sign && !IsWhitespace(sign);
    assert TrimStart(s) == s;
    assert s[1..] == ShowNat(n) + rest;
    DigitPrefixOf(ShowNat(n), rest);
    DigitsValueShowNat(n);
  }

  /** Every number `parseInt` reads was written with at least one digit. */
  lemma ParseIntNeedsDigit(s: string)
    ensures ParseInt(s).Num? ==> exists i :: 0 <= i < |s| && IsDigit(s[i])
  {
    if ParseInt(s).Num? {
      var t := TrimStart(s);
      var signed := |t| > 0 && (t[0] == '-' || t[0] == '+');
      var body := if signed then t[1..] else t;
      var ds := DigitPrefix(body);
      var off := LeadingSpace(s) + (if signed then 1 else 0);
      assert ds == body[..|ds|] && ds != [];
      assert s[off] == ds[0];
    }
  }

  /** Leading zeros before a numeral are skipped: `parseInt("01", 10)` is 1. */
  lemma ParseIntLeadingZeros(zeros: nat, n: nat, rest: string)
    requires rest == [] || !IsDigit(rest[0])
    ensures ParseInt(seq(zeros, _ => '0') + ShowNat(n) + rest) == Num(n)
  {
    var ds := seq(zeros, _ => '0') + ShowNat(n);
    LeadingZerosIgnored(zeros, ShowNat(n));
    DigitsValueShowNat(n);
    ParseIntDigits(ds, rest);
  }

  /** Unsigned digits followed by a non-digit parse to their decimal value. */
  lemma ParseIntDigits(ds: string, rest: string)
    requires ds != [] && AllDigits(ds)
    requires rest == [] || !IsDigit(rest[0])
    ensures ParseInt(ds + rest) == Num(DigitsValue(ds))
  {
    var s := ds + rest;
    assert IsDigit(ds[0]) && s[0] == ds[0];
    assert LeadingSpace(s) == 0;
    assert TrimStart(s) == s;
    DigitPrefixOf(ds, rest);
  }

  lemma {:induction false} DigitPrefixOf(ds: string, rest: string)
    requires AllDigits(ds)
    requires rest == [] || !IsDigit(rest[0])
    ensures DigitPrefix(ds + rest) == ds
  {
    if ds != [] {
      assert (ds + rest)[1..] == ds[1..] + rest;
      DigitPrefixOf(ds[1..], rest);
    } else {
      assert ds + rest == rest;
    }
  }

  /** Text starting with a character that is neither whitespace, a sign nor
      a digit does not parse: `parseInt("abc", 10)` is NaN. */
  lemma ParseIntNonNumeric(s: string)
    requires s != [] && !IsWhitespace(s[0]) && !IsDigit(s[0]) && s[0] != '-' && s[0] != '+'
    ensures ParseInt(s) == NaN
  {
  }
}
