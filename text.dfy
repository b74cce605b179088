/**
 * The few Python string operations the scripts rely on, on `seq<char>`:
 * `str.split` and `str.join` with a one-character separator, `str.strip`,
 * `str.lower`, `in` on strings, `str.endswith`, `str(int)` and `int(str)`.
 */
module Text {
  import opened Wrappers

  // ---------------------------------------------------------------------
  // Whitespace, as Python's str.isspace() defines it

  predicate IsSpace(c: char)
  {
    || c == ' ' || ('\t' <= c <= '\r') || ('\U{1c}' <= c <= '\U{1f}')
    || c == '\U{85}' || c == '\U{a0}' || c == '\U{1680}'
    || ('\U{2000}' <= c <= '\U{200a}') || c == '\U{2028}' || c == '\U{2029}'
    || c == '\U{202f}' || c == '\U{205f}' || c == '\U{3000}'
  }

  /** `not s.strip()`: the string is empty or all whitespace. */
  predicate IsBlank(s: string)
  {
    forall k :: 0 <= k < |s| ==> IsSpace(s[k])
  }

  /** The tokens kept by `[v for v in tokens if v.strip()]`, in order. */
  function NonBlank(tokens: seq<string>): (r: seq<string>)
    ensures |r| <= |tokens|
    ensures forall k :: 0 <= k < |r| ==> !IsBlank(r[k])
  {
    if |tokens| == 0 then []
    else if IsBlank(tokens[0]) then NonBlank(tokens[1..])
    else [tokens[0]] + NonBlank(tokens[1..])
  }

  lemma {:induction false} NonBlankKeepsAll(tokens: seq<string>)
    requires forall k :: 0 <= k < |tokens| ==> !IsBlank(tokens[k])
    ensures NonBlank(tokens) == tokens
  {
    if |tokens| > 0 {
      NonBlankKeepsAll(tokens[1..]);
      assert [tokens[0]] + tokens[1..] == tokens;
    }
  }

  /** The filter works token by token: filtering two lists one after the other is
      filtering each and concatenating the results. With `NonBlank([t])` being `[t]`
      for a non-blank `t` and `[]` for a blank one, this pins the result down. */
  lemma {:induction false} NonBlankAppend(a: seq<string>, b: seq<string>)
    ensures NonBlank(a + b) == NonBlank(a) + NonBlank(b)
    decreases |a|
  {
    if |a| > 0 {
      assert (a + b)[0] == a[0] && (a + b)[1..] == a[1..] + b;
      NonBlankAppend(a[1..], b);
    } else {
      assert a + b == b;
    }
  }

  /** A token survives the filter exactly when it is in the list and not blank. */
  lemma {:induction false} NonBlankMembers(tokens: seq<string>)
    ensures forall t :: t in NonBlank(tokens) <==> t in tokens && !IsBlank(t)
  {
    if |tokens| > 0 {
      NonBlankMembers(tokens[1..]);
      assert tokens == [tokens[0]] + tokens[1..];
    }
  }

  /** Leading and trailing characters satisfying `drop` removed: `s.strip()` and
      `s.strip(c)` are this with whitespace and with `c`. */
  function Strip(s: string, drop: char -> bool): (r: string)
    ensures |r| <= |s|
    ensures |r| > 0 ==> !drop(r[0]) && !drop(r[|r| - 1])
    ensures (forall k :: 0 <= k < |s| ==> !drop(s[k])) ==> r == s
    decreases |s|
  {
    if |s| > 0 && drop(s[0]) then Strip(s[1..], drop)
    else if |s| > 0 && drop(s[|s| - 1]) then Strip(s[..|s| - 1], drop)
    else s
  }

  /** The stripped string is the slice of `s` between a run of dropped characters at the
      front and one at the back, and what is left neither starts nor ends with one. */
  lemma {:induction false} StripSlice(s: string, drop: char -> bool) returns (i: nat, j: nat)
    ensures i <= j <= |s| && Strip(s, drop) == s[i..j]
    ensures forall k :: 0 <= k < i ==> drop(s[k])
    ensures forall k :: j <= k < |s| ==> drop(s[k])
    ensures i < j ==> !drop(s[i]) && !drop(s[j - 1])
    decreases |s|, 1
  {
    if |s| > 0 && drop(s[0]) {
      i, j := StripSliceFront(s, drop);
    } else if |s| > 0 && drop(s[|s| - 1]) {
      i, j := StripSliceBack(s, drop);
    } else {
      i, j := 0, |s|;
      assert s[0..|s|] == s;
    }
  }

  /** `StripSlice` when the first character is dropped. */
  lemma {:induction false} StripSliceFront(s: string, drop: char -> bool) returns (i: nat, j: nat)
    requires |s| > 0 && drop(s[0])
    ensures i <= j <= |s| && Strip(s, drop) == s[i..j]
    ensures forall k :: 0 <= k < i ==> drop(s[k])
    ensures forall k :: j <= k < |s| ==> drop(s[k])
    ensures i < j ==> !drop(s[i]) && !drop(s[j - 1])
    decreases |s|, 0
  {
    var i', j' := StripSlice(s[1..], drop);
    StripFrontBounds(s, s[1..], drop, i', j');
    i, j := i' + 1, j' + 1;
  }

  /** `StripSlice` when the first character is kept and the last one dropped. */
  lemma {:induction false} StripSliceBack(s: string, drop: char -> bool) returns (i: nat, j: nat)
    requires |s| > 0 && !drop(s[0]) && drop(s[|s| - 1])
    ensures i <= j <= |s| && Strip(s, drop) == s[i..j]
    ensures forall k :: 0 <= k < i ==> drop(s[k])
    ensures forall k :: j <= k < |s| ==> drop(s[k])
    ensures i < j ==> !drop(s[i]) && !drop(s[j - 1])
    decreases |s|, 0
  {
    i, j := StripSlice(s[..|s| - 1], drop);
    StripBackBounds(s, s[..|s| - 1], drop, i, j);
  }

  /** Bounds found in `t`, which is `s` without a dropped first character, moved one
      place right. */
  lemma StripFrontBounds(s: string, t: string, drop: char -> bool, i: nat, j: nat)
    requires |s| > 0 && drop(s[0]) && t == s[1..] && i <= j <= |t|
    requires forall k :: 0 <= k < i ==> drop(t[k])
    requires forall k :: j <= k < |t| ==> drop(t[k])
    requires i < j ==> !drop(t[i]) && !drop(t[j - 1])
    ensures t[i..j] == s[i + 1..j + 1]
    ensures i < j ==> !drop(s[i + 1]) && !drop(s[j])
    ensures forall k :: 0 <= k < i + 1 ==> drop(s[k])
    ensures forall k :: j + 1 <= k < |s| ==> drop(s[k])
  {
    forall k | 0 <= k < i + 1 ensures drop(s[k]) {
      if k > 0 { assert s[k] == t[k - 1]; }
    }
    forall k | j + 1 <= k < |s| ensures drop(s[k]) {
      assert s[k] == t[k - 1];
    }
  }

  /** Bounds found in `t`, which is `s` without a dropped last character, hold in `s`. */
  lemma StripBackBounds(s: string, t: string, drop: char -> bool, i: nat, j: nat)
    requires |s| > 0 && drop(s[|s| - 1]) && t == s[..|s| - 1] && i <= j <= |t|
    requires forall k :: 0 <= k < i ==> drop(t[k])
    requires forall k :: j <= k < |t| ==> drop(t[k])
    requires i < j ==> !drop(t[i]) && !drop(t[j - 1])
    ensures t[i..j] == s[i..j]
    ensures i < j ==> !drop(s[i]) && !drop(s[j - 1])
    ensures forall k :: 0 <= k < i ==> drop(s[k])
    ensures forall k :: j <= k < |s| ==> drop(s[k])
  {
    assert forall k :: 0 <= k < |t| ==> s[k] == t[k];
  }

  /** `s.strip()`. */
  function StripSpace(s: string): string
  {
    Strip(s, IsSpace)
  }

  /** `s.strip(c)`. */
  function StripChar(s: string, c: char): string
  {
    Strip(s, x => x == c)
  }

  /** One leading `c` in front of a string that neither starts nor ends with `c` is all `strip(c)` removes. */
  lemma StripLeading(s: string, c: char)
    requires |s| >= 1 && s[0] != c && s[|s| - 1] != c
    ensures StripChar([c] + s, c) == s
  {
    assert ([c] + s)[1..] == s;
    assert StripChar([c] + s, c) == StripChar(s, c);
  }

  // ---------------------------------------------------------------------
  // split and join

  /** `s.split(sep)`: the pieces between occurrences of `sep`, empty pieces included. */
  function Split(s: string, sep: char): (parts: seq<string>)
    ensures |parts| >= 1
    ensures forall k :: 0 <= k < |parts| ==> sep !in parts[k]
    decreases |s|
  {
    if |s| == 0 then [""]
    else
      var rest := Split(s[1..], sep);
      if s[0] == sep then [""] + rest
      else [[s[0]] + rest[0]] + rest[1..]
  }

  /** `sep.join(parts)`. */
  function Join(parts: seq<string>, sep: char): string
  {
    if |parts| == 0 then ""
    else if |parts| == 1 then parts[0]
    else parts[0] + [sep] + Join(parts[1..], sep)
  }

  /** Joining the pieces of a split with the same separator gives the string back; with
      no piece holding the separator, this is all there is to `split`. */
  lemma {:induction false} SplitJoinsBack(s: string, sep: char)
    ensures Join(Split(s, sep), sep) == s
    decreases |s|
  {
    if |s| > 0 {
      var rest := Split(s[1..], sep);
      SplitJoinsBack(s[1..], sep);
      assert s == [s[0]] + s[1..];
      if s[0] == sep {
        assert ([""] + rest)[1..] == rest;
        assert Join([""] + rest, sep) == "" + [sep] + Join(rest, sep);
      } else if |rest| == 1 {
        assert Join(rest, sep) == rest[0];
      } else {
        var parts := [[s[0]] + rest[0]] + rest[1..];
        assert parts[1..] == rest[1..];
        assert Join(rest, sep) == rest[0] + [sep] + Join(rest[1..], sep);
        assert Join(parts, sep) == [s[0]] + rest[0] + [sep] + Join(rest[1..], sep);
      }
    }
  }

  lemma {:induction false} SplitPlain(w: string, sep: char)
    requires sep !in w
    ensures Split(w, sep) == [w]
    decreases |w|
  {
    if |w| > 0 {
      SplitPlain(w[1..], sep);
      assert [w[0]] + w[1..] == w;
    }
  }

  lemma {:induction false} SplitAfterPiece(w: string, sep: char, t: string)
    requires sep !in w
    ensures Split(w + [sep] + t, sep) == [w] + Split(t, sep)
    decreases |w|
  {
    var s := w + [sep] + t;
    if |w| > 0 {
      assert s[1..] == w[1..] + [sep] + t;
      SplitAfterPiece(w[1..], sep, t);
      assert [w[0]] + w[1..] == w;
    } else {
      assert s[1..] == t;
    }
  }

  /** Splitting a join gives the pieces back, provided no piece holds the separator. */
  lemma {:induction false} SplitJoin(parts: seq<string>, sep: char)
    requires |parts| >= 1
    requires forall k :: 0 <= k < |parts| ==> sep !in parts[k]
    ensures Split(Join(parts, sep), sep) == parts
  {
    if |parts| == 1 {
      SplitPlain(parts[0], sep);
    } else {
      SplitJoin(parts[1..], sep);
      SplitAfterPiece(parts[0], sep, Join(parts[1..], sep));
      assert [parts[0]] + parts[1..] == parts;
    }
  }

  /** A join of non-empty pieces starts with the first piece's first character and
      ends with the last piece's last character. */
  lemma {:induction false} JoinEnds(parts: seq<string>, sep: char)
    requires |parts| >= 1
    requires forall k :: 0 <= k < |parts| ==> |parts[k]| >= 1
    ensures |Join(parts, sep)| >= 1
    ensures Join(parts, sep)[0] == parts[0][0]
    ensures Join(parts, sep)[|Join(parts, sep)| - 1] == parts[|parts| - 1][|parts[|parts| - 1]| - 1]
  {
    if |parts| > 1 {
      JoinEnds(parts[1..], sep);
    }
  }

  /** What a reader gets back from a join when it splits and drops blank tokens:
      exactly the tokens, in order, for every list of non-blank tokens free of `sep`
      (the empty list included: "" splits to [""], which is blank). */
  lemma TokensRoundTrip(tokens: seq<string>, sep: char)
    requires forall k :: 0 <= k < |tokens| ==> sep !in tokens[k] && !IsBlank(tokens[k])
    ensures NonBlank(Split(Join(tokens, sep), sep)) == tokens
  {
    if |tokens| == 0 {
      assert Split("", sep) == [""];
      assert IsBlank("");
    } else {
      SplitJoin(tokens, sep);
      NonBlankKeepsAll(tokens);
    }
  }

  // ---------------------------------------------------------------------
  // substring tests and case

  predicate StartsWith(s: string, prefix: string)
  {
    |prefix| <= |s| && s[..|prefix|] == prefix
  }

  predicate EndsWith(s: string, suffix: string)
  {
    |suffix| <= |s| && s[|s| - |suffix|..] == suffix
  }

  /** `sub in s`. */
  predicate Contains(s: string, sub: string)
    decreases |s|
  {
    StartsWith(s, sub) || (|s| > 0 && Contains(s[1..], sub))
  }

  lemma {:induction false} ContainsAt(s: string, sub: string, i: nat)
    requires i + |sub| <= |s| && s[i..i + |sub|] == sub
    ensures Contains(s, sub)
    decreases i
  {
    if i > 0 {
      assert s[1..][i - 1..i - 1 + |sub|] == s[i..i + |sub|];
      ContainsAt(s[1..], sub, i - 1);
    }
  }

  /** Where a contained substring occurs. */
  lemma {:induction false} ContainsWhere(s: string, sub: string) returns (i: nat)
    requires Contains(s, sub)
    ensures i + |sub| <= |s| && s[i..i + |sub|] == sub
    decreases |s|
  {
    if StartsWith(s, sub) {
      i := 0;
    } else {
      var j := ContainsWhere(s[1..], sub);
      assert s[1..][j..j + |sub|] == s[j + 1..j + 1 + |sub|];
      i := j + 1;
    }
  }

  /** A string without the character `c` contains no substring that holds `c`. */
  lemma {:induction false} MissingCharNotContained(s: string, sub: string, c: char)
    requires c in sub && c !in s
    ensures !Contains(s, sub)
    decreases |s|
  {
    var k :| 0 <= k < |sub| && sub[k] == c;
    if |sub| <= |s| {
      assert s[..|sub|][k] == s[k];
    }
    if |s| > 0 {
      MissingCharNotContained(s[1..], sub, c);
    }
  }

  function LowerChar(c: char): char
  {
    if 'A' <= c <= 'Z' then (c as int + 32) as char else c
  }

  /** `s.lower()` on the ASCII letters; every other character is kept. */
  function Lower(s: string): (r: string)
    ensures |r| == |s|
    ensures forall k :: 0 <= k < |s| ==> r[k] == LowerChar(s[k])
  {
    seq(|s|, k requires 0 <= k < |s| => LowerChar(s[k]))
  }

  // ---------------------------------------------------------------------
  // str(int) and int(str)

  predicate IsDigit(c: char)
  {
    '0' <= c <= '9'
  }

  function DigitChar(d: nat): (c: char)
    requires d < 10
    ensures IsDigit(c) && c as int - '0' as int == d
  {
    ('0' as int + d) as char
  }

  /** Decimal digits of a natural number, most significant first, no leading zero. */
  function NatToString(n: nat): (s: string)
    ensures |s| >= 1
    ensures forall k :: 0 <= k < |s| ==> IsDigit(s[k])
  {
    if n < 10 then [DigitChar(n)] else NatToString(n / 10) + [DigitChar(n % 10)]
  }

  /** `str(n)` for a Python int. */
  function IntToString(n: int): (s: string)
    ensures |s| >= 1
    ensures forall k :: 0 <= k < |s| ==> IsDigit(s[k]) || (k == 0 && s[k] == '-')
  {
    if n < 0 then "-" + NatToString(-n) else NatToString(n)
  }

  /** The value of a string of decimal digits. */
  function DigitsValue(s: string): nat
    requires forall k :: 0 <= k < |s| ==> IsDigit(s[k])
  {
    if |s| == 0 then 0
    else
      assert IsDigit(s[|s| - 1]);
      DigitsValue(s[..|s| - 1]) * 10 + (s[|s| - 1] as int - '0' as int)
  }

  /** Digits with single underscores between them, as `int()` accepts. */
  predicate DigitGroups(s: string)
  {
    && |s| >= 1
    && IsDigit(s[0]) && IsDigit(s[|s| - 1])
    && (forall k :: 0 <= k < |s| ==> IsDigit(s[k]) || s[k] == '_')
    && (forall k :: 0 <= k < |s| - 1 ==> s[k] == '_' ==> s[k + 1] != '_')
  }

  function RemoveUnderscores(s: string): (r: string)
    ensures (forall k :: 0 <= k < |s| ==> IsDigit(s[k]) || s[k] == '_') ==>
              forall k :: 0 <= k < |r| ==> IsDigit(r[k])
  {
    if |s| == 0 then ""
    else if s[0] == '_' then RemoveUnderscores(s[1..])
    else [s[0]] + RemoveUnderscores(s[1..])
  }

  lemma {:induction false} RemoveUnderscoresPlain(s: string)
    requires forall k :: 0 <= k < |s| ==> IsDigit(s[k])
    ensures RemoveUnderscores(s) == s
  {
    if |s| > 0 {
      RemoveUnderscoresPlain(s[1..]);
      assert [s[0]] + s[1..] == s;
    }
  }

  function ParseUnsigned(s: string): (r: Option<nat>)
    ensures r.Some? <==> DigitGroups(s)
  {
    if DigitGroups(s) then Some(DigitsValue(RemoveUnderscores(s))) else None
  }

  /** `int(s)` in base 10: surrounding whitespace, one optional sign, then digits
      with single underscores between them; anything else raises ValueError (None). */
  function ParseInt(s: string): (r: Option<int>)
    ensures r.Some? ==> |StripSpace(s)| >= 1
  {
    var t := StripSpace(s);
    if |t| >= 1 && (t[0] == '-' || t[0] == '+') then
      match ParseUnsigned(t[1..])
      case None => None
      case Some(n) =>
        var v: int := if t[0] == '-' then -(n as int) else n as int;
        Some(v)
    else
      match ParseUnsigned(t)
      case None => None
      case Some(n) => Some(n)
  }

  /** What `int(s)` accepts and what it returns: after stripping whitespace, either digit
      groups, read as their decimal value, or one sign followed by digit groups, read as
      that value negated for '-'. */
  lemma ParseIntMeaning(s: string)
    ensures var t := StripSpace(s);
      ParseInt(s).Some? <==> DigitGroups(t) || (|t| >= 1 && (t[0] == '-' || t[0] == '+') && DigitGroups(t[1..]))
    ensures var t := StripSpace(s);
      DigitGroups(t) ==> ParseInt(s) == Some(DigitsValue(RemoveUnderscores(t)))
    ensures var t := StripSpace(s);
      |t| >= 1 && t[0] == '+' && DigitGroups(t[1..]) ==> ParseInt(s) == Some(DigitsValue(RemoveUnderscores(t[1..])))
    ensures var t := StripSpace(s);
      |t| >= 1 && t[0] == '-' && DigitGroups(t[1..]) ==> ParseInt(s) == Some(-(DigitsValue(RemoveUnderscores(t[1..])) as int))
  {
    var t := StripSpace(s);
    if DigitGroups(t) {
      assert IsDigit(t[0]);
    }
  }

  lemma {:induction false} DigitsValueOfNat(n: nat)
    ensures DigitsValue(NatToString(n)) == n
  {
    if n >= 10 {
      DigitsValueOfNat(n / 10);
      var s := NatToString(n);
      assert s[..|s| - 1] == NatToString(n / 10);
    }
  }

  lemma StripSpaceNoSpace(s: string)
    requires forall k :: 0 <= k < |s| ==> !IsSpace(s[k])
    ensures StripSpace(s) == s
  {
  }

  /** The digits of a natural number read back as that number. */
  lemma ParseUnsignedNatToString(m: nat)
    ensures ParseUnsigned(NatToString(m)) == Some(m)
  {
    var digits := NatToString(m);
    RemoveUnderscoresPlain(digits);
    DigitsValueOfNat(m);
    assert DigitGroups(digits);
  }

  /** `int(str(n)) == n` for every integer. */
  lemma ParseIntToString(n: int)
    ensures ParseInt(IntToString(n)) == Some(n)
  {
    var s := IntToString(n);
    StripSpaceNoSpace(s);
    var m: nat := if n < 0 then -n else n;
    ParseUnsignedNatToString(m);
    if n < 0 {
      assert s[1..] == NatToString(m);
    } else {
      assert s == NatToString(m) && s[0] != '-' && s[0] != '+';
    }
  }

  lemma IntToStringInjective(a: int, b: int)
    requires IntToString(a) == IntToString(b)
    ensures a == b
  {
    ParseIntToString(a);
    ParseIntToString(b);
  }
}
