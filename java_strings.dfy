/**
 * The few java.lang.String and java.lang.Integer operations the client relies on,
 * stated on `seq<char>`: null-aware concatenation, toLowerCase, trim, indexOf,
 * Integer.parseInt and replaceAll(" ", "%20"). Split and Join are reference
 * definitions used to state what the parameter string looks like to its reader.
 */
module JavaStrings {
  import opened Wrappers

  /** Java's `s != null && !s.equals("")`. */
  predicate NonEmpty(s: Option<string>)
  {
    s.Some? && s.value != ""
  }

  /** What `"..." + s` appends for a String reference `s`: a null prints as "null". */
  function Shown(s: Option<string>): string
  {
    match s
    case None => "null"
    case Some(v) => v
  }

  // ---------------------------------------------------------------------------
  // toLowerCase (ASCII letters; every other character is left as it is)

  function LowerChar(c: char): char
  {
    if 'A' <= c <= 'Z' then (c as int + 32) as char else c
  }

  predicate HasNoUpper(s: string)
  {
    forall i :: 0 <= i < |s| ==> !('A' <= s[i] <= 'Z')
  }

  function ToLowerCase(s: string): (r: string)
    ensures |r| == |s|
    ensures forall i :: 0 <= i < |s| ==> r[i] == LowerChar(s[i])
  {
    seq(|s|, i requires 0 <= i < |s| => LowerChar(s[i]))
  }

  lemma ToLowerCaseAppend(a: string, b: string)
    ensures ToLowerCase(a + b) == ToLowerCase(a) + ToLowerCase(b)
  {
    assert forall i :: 0 <= i < |a + b| ==> ToLowerCase(a + b)[i] == (ToLowerCase(a) + ToLowerCase(b))[i];
  }

  lemma ToLowerCaseKeepsLower(s: string)
    requires HasNoUpper(s)
    ensures ToLowerCase(s) == s
  {
    assert forall i :: 0 <= i < |s| ==> ToLowerCase(s)[i] == s[i];
  }

  // ---------------------------------------------------------------------------
  // trim(): removes every leading and trailing character whose code is <= U+0020

  predicate Blank(c: char)
  {
    c <= ' '
  }

  predicate AllBlank(s: string)
  {
    forall i :: 0 <= i < |s| ==> Blank(s[i])
  }

  /** The first index at or after `i` that holds a non-blank character, or |s|. */
  function SkipBlanks(s: string, i: nat): (k: nat)
    requires i <= |s|
    ensures i <= k <= |s|
    ensures forall j :: i <= j < k ==> Blank(s[j])
    ensures k < |s| ==> !Blank(s[k])
    decreases |s| - i
  {
    if i < |s| && Blank(s[i]) then SkipBlanks(s, i + 1) else i
  }

  /** The end of `s[lo..hi]` once its trailing blanks are dropped. */
  function SkipBlanksBack(s: string, lo: nat, hi: nat): (k: nat)
    requires lo <= hi <= |s|
    ensures lo <= k <= hi
    ensures forall j :: k <= j < hi ==> Blank(s[j])
    ensures k > lo ==> !Blank(s[k - 1])
    decreases hi
  {
    if hi > lo && Blank(s[hi - 1]) then SkipBlanksBack(s, lo, hi - 1) else hi
  }

  function TrimStart(s: string): nat
  {
    SkipBlanks(s, 0)
  }

  /**
   * String.trim(): what is left is a slice of `s`, everything cut off on either
   * side is blank, and the slice neither starts nor ends with a blank.
   */
  function Trim(s: string): (r: string)
    ensures TrimStart(s) + |r| <= |s| && r == s[TrimStart(s)..TrimStart(s) + |r|]
    ensures AllBlank(s[..TrimStart(s)]) && AllBlank(s[TrimStart(s) + |r|..])
    ensures r == [] || (!Blank(r[0]) && !Blank(r[|r| - 1]))
  {
    var st := TrimStart(s);
    var end := SkipBlanksBack(s, st, |s|);
    assert st < end ==> !Blank(s[st]);
    s[st..end]
  }

  lemma {:induction false} SkipBlanksOver(s: string, i: nat, m: nat)
    requires i <= m < |s|
    requires forall j :: i <= j < m ==> Blank(s[j])
    requires !Blank(s[m])
    ensures SkipBlanks(s, i) == m
    decreases m - i
  {
    if i < m {
      SkipBlanksOver(s, i + 1, m);
    }
  }

  lemma {:induction false} SkipBlanksBackOver(s: string, lo: nat, hi: nat, m: nat)
    requires lo < m <= hi <= |s|
    requires forall j :: m <= j < hi ==> Blank(s[j])
    requires !Blank(s[m - 1])
    ensures SkipBlanksBack(s, lo, hi) == m
    decreases hi
  {
    if m < hi {
      SkipBlanksBackOver(s, lo, hi - 1, m);
    }
  }

  /** The converse of Trim's contract: padding a trimmed string with blanks is undone by Trim. */
  lemma TrimPadded(p: string, t: string, q: string)
    requires AllBlank(p) && AllBlank(q)
    requires t == [] || (!Blank(t[0]) && !Blank(t[|t| - 1]))
    ensures Trim(p + t + q) == t
  {
    var s := p + t + q;
    var r := Trim(s);
    var st := TrimStart(s);
    if t == [] {
      assert AllBlank(s) by {
        forall i | 0 <= i < |s| ensures Blank(s[i]) {
          if i < |p| { assert s[i] == p[i]; } else { assert s[i] == q[i - |p|]; }
        }
      }
      assert st == |s|;
      assert Trim(s) == [];
    } else {
      assert s[|p|] == t[0];
      SkipBlanksOver(s, 0, |p|);
      assert s[|p| + |t| - 1] == t[|t| - 1];
      SkipBlanksBackOver(s, |p|, |s|, |p| + |t|);
      assert s[|p|..|p| + |t|] == t;
    }
  }

  // ---------------------------------------------------------------------------
  // indexOf

  predicate OccursAt(s: string, pat: string, j: int)
  {
    0 <= j && j + |pat| <= |s| && s[j..j + |pat|] == pat
  }

  /** s.indexOf(pat, i): the first occurrence at or after `i`, or -1. */
  function IndexOfFrom(s: string, pat: string, i: nat): (k: int)
    requires i <= |s|
    ensures k == -1 || (i <= k && OccursAt(s, pat, k))
    ensures forall j :: i <= j && (k == -1 || j < k) ==> !OccursAt(s, pat, j)
    decreases |s| - i
  {
    if i + |pat| > |s| then -1
    else if s[i..i + |pat|] == pat then i
    else IndexOfFrom(s, pat, i + 1)
  }

  function IndexOf(s: string, pat: string): (k: int)
    ensures k == -1 || OccursAt(s, pat, k)
    ensures forall j :: 0 <= j && (k == -1 || j < k) ==> !OccursAt(s, pat, j)
  {
    IndexOfFrom(s, pat, 0)
  }

  // ---------------------------------------------------------------------------
  // Integer.parseInt (radix 10; ASCII digits; 32-bit range)

  const IntMin: int := -0x8000_0000
  const IntMax: int := 0x7fff_ffff

  predicate IsDigit(c: char)
  {
    '0' <= c <= '9'
  }

  predicate AllDigits(s: string)
  {
    forall i :: 0 <= i < |s| ==> IsDigit(s[i])
  }

  function DigitsValue(ds: string): nat
    requires AllDigits(ds)
    decreases |ds|
  {
    if ds == [] then 0
    else DigitsValue(ds[..|ds| - 1]) * 10 + (ds[|ds| - 1] as int - '0' as int)
  }

  /** The part of `s` after an optional leading sign. */
  function Unsigned(s: string): string
  {
    if |s| > 0 && (s[0] == '-' || s[0] == '+') then s[1..] else s
  }

  /**
   * Integer.parseInt(s): None stands for NumberFormatException (empty input, a
   * lone sign, a non-digit, or a value outside the 32-bit range).
   */
  function ParseInt(s: string): (r: Option<int>)
    ensures r.Some? ==> IntMin <= r.value <= IntMax
    ensures r.Some? ==> Unsigned(s) != [] && AllDigits(Unsigned(s))
  {
    var digits := Unsigned(s);
    if digits == [] || !AllDigits(digits) then None
    else
      var v := if s[0] == '-' then 0 - DigitsValue(digits) else DigitsValue(digits);
      if IntMin <= v <= IntMax then Some(v) else None
  }

  /** A numeral for zero: an optional sign and then one or more '0's ("0", "000", "-0"). */
  predicate IsZeroNumeral(s: string)
  {
    var digits := Unsigned(s);
    digits != [] && forall i :: 0 <= i < |digits| ==> digits[i] == '0'
  }

  lemma {:induction false} DigitsValueZero(ds: string)
    requires AllDigits(ds)
    ensures DigitsValue(ds) == 0 <==> forall i :: 0 <= i < |ds| ==> ds[i] == '0'
    decreases |ds|
  {
    if ds != [] {
      var init := ds[..|ds| - 1];
      DigitsValueZero(init);
      if forall i :: 0 <= i < |ds| ==> ds[i] == '0' {
        assert forall i :: 0 <= i < |init| ==> init[i] == '0' by {
          forall i | 0 <= i < |init| ensures init[i] == '0' { assert init[i] == ds[i]; }
        }
      }
      if DigitsValue(ds) == 0 {
        forall i | 0 <= i < |ds| ensures ds[i] == '0' {
          if i < |init| { assert init[i] == ds[i]; }
        }
      }
    }
  }

  /** parseInt yields 0 exactly on the numerals for zero; every other string is kept by the caller. */
  lemma ParseIntZero(s: string)
    ensures ParseInt(s) == Some(0) <==> IsZeroNumeral(s)
  {
    var digits := Unsigned(s);
    if digits != [] {
      if IsZeroNumeral(s) {
        assert AllDigits(digits);
        DigitsValueZero(digits);
      } else if AllDigits(digits) {
        DigitsValueZero(digits);
      }
    }
  }

  // ---------------------------------------------------------------------------
  // replaceAll(" ", "%20") and the reader's inverse

  function ReplaceSpaces(s: string): (r: string)
    ensures ' ' !in r
    decreases |s|
  {
    if s == [] then []
    else (if s[0] == ' ' then "%20" else [s[0]]) + ReplaceSpaces(s[1..])
  }

  lemma {:induction false} ReplaceSpacesAppend(a: string, b: string)
    ensures ReplaceSpaces(a + b) == ReplaceSpaces(a) + ReplaceSpaces(b)
    decreases |a|
  {
    if a == [] {
      assert a + b == b;
    } else {
      assert (a + b)[0] == a[0];
      assert (a + b)[1..] == a[1..] + b;
      ReplaceSpacesAppend(a[1..], b);
    }
  }

  lemma {:induction false} ReplaceSpacesKeeps(s: string)
    requires ' ' !in s
    ensures ReplaceSpaces(s) == s
    decreases |s|
  {
    if s != [] {
      ReplaceSpacesKeeps(s[1..]);
      assert s == [s[0]] + s[1..];
    }
  }

  /** A prefix without spaces passes through unchanged. */
  lemma ReplaceSpacesAfterClean(clean: string, rest: string)
    requires ' ' !in clean
    ensures ReplaceSpaces(clean + rest) == clean + ReplaceSpaces(rest)
  {
    ReplaceSpacesAppend(clean, rest);
    ReplaceSpacesKeeps(clean);
  }

  /** Percent-decoding restricted to "%20", as the receiving server reads the query. */
  function UnescapeSpaces(s: string): string
    decreases |s|
  {
    if s == [] then []
    else if |s| >= 3 && s[..3] == "%20" then " " + UnescapeSpaces(s[3..])
    else [s[0]] + UnescapeSpaces(s[1..])
  }

  lemma {:induction false} UnescapeReplaceSpaces(s: string)
    requires '%' !in s
    ensures UnescapeSpaces(ReplaceSpaces(s)) == s
    decreases |s|
  {
    if s != [] {
      var rest := ReplaceSpaces(s[1..]);
      assert '%' !in s[1..] by {
        forall i | 0 <= i < |s[1..]| ensures s[1..][i] != '%' { assert s[1..][i] == s[i + 1]; }
      }
      UnescapeReplaceSpaces(s[1..]);
      if s[0] == ' ' {
        var e := "%20" + rest;
        assert e[..3] == "%20" && e[3..] == rest;
      } else {
        var e := [s[0]] + rest;
        assert e[0] == s[0] && e[1..] == rest;
        assert s[0] != '%';
      }
      assert s == [s[0]] + s[1..];
    }
  }

  // ---------------------------------------------------------------------------
  // Join and Split on a separator character

  /** The parts separated by `sep`, built from the left as a sequence of `+=` would. */
  function Join(parts: seq<string>, sep: char): string
    requires |parts| >= 1
    decreases |parts|
  {
    if |parts| == 1 then parts[0]
    else Join(parts[..|parts| - 1], sep) + [sep] + parts[|parts| - 1]
  }

  /** Splits at every `sep`, keeping empty pieces (so Split("", c) == [""]). */
  function Split(s: string, sep: char): (r: seq<string>)
    ensures |r| >= 1
    decreases |s|
  {
    if s == [] then [""]
    else
      var rest := Split(s[1..], sep);
      if s[0] == sep then [""] + rest else [[s[0]] + rest[0]] + rest[1..]
  }

  lemma {:induction false} SplitWithout(a: string, sep: char)
    requires sep !in a
    ensures Split(a, sep) == [a]
    decreases |a|
  {
    if a != [] {
      assert sep !in a[1..] by {
        forall i | 0 <= i < |a[1..]| ensures a[1..][i] != sep { assert a[1..][i] == a[i + 1]; }
      }
      SplitWithout(a[1..], sep);
      assert [a[0]] + a[1..] == a;
    }
  }

  lemma {:induction false} SplitLast(a: string, sep: char, b: string)
    requires sep !in b
    ensures Split(a + [sep] + b, sep) == Split(a, sep) + [b]
    decreases |a|
  {
    var s := a + [sep] + b;
    if a == [] {
      assert s[0] == sep && s[1..] == b;
      SplitWithout(b, sep);
    } else {
      assert s[0] == a[0] && s[1..] == a[1..] + [sep] + b;
      SplitLast(a[1..], sep, b);
    }
  }

  /** Splitting a join gives the parts back, as long as no part contains the separator. */
  lemma {:induction false} SplitJoin(parts: seq<string>, sep: char)
    requires |parts| >= 1
    requires forall k :: 0 <= k < |parts| ==> sep !in parts[k]
    ensures Split(Join(parts, sep), sep) == parts
    decreases |parts|
  {
    if |parts| == 1 {
      SplitWithout(parts[0], sep);
    } else {
      var init := parts[..|parts| - 1];
      SplitJoin(init, sep);
      SplitLast(Join(init, sep), sep, parts[|parts| - 1]);
      assert init + [parts[|parts| - 1]] == parts;
    }
  }

  /** One more `+= part + sep` step extends the join of the parts so far. */
  /** With two or more parts, the join starts with the first part followed by the separator. */
  lemma {:induction false} JoinHead(parts: seq<string>, sep: char)
    requires |parts| >= 2
    ensures |parts[0]| < |Join(parts, sep)| && Join(parts, sep)[..|parts[0]| + 1] == parts[0] + [sep]
    decreases |parts|
  {
    var init := parts[..|parts| - 1];
    var n := |parts[0]| + 1;
    if |parts| == 2 {
      assert init == [parts[0]];
      assert Join(parts, sep) == (parts[0] + [sep]) + parts[1];
    } else {
      assert init[0] == parts[0];
      JoinHead(init, sep);
      var j := Join(init, sep);
      assert Join(parts, sep) == j + ([sep] + parts[|parts| - 1]);
      assert (j + ([sep] + parts[|parts| - 1]))[..n] == j[..n];
    }
  }

  lemma JoinStep(parts: seq<string>, sep: char, k: nat)
    requires 1 <= k < |parts|
    ensures Join(parts[..k], sep) + [sep] + (parts[k] + [sep]) == Join(parts[..k + 1], sep) + [sep]
  {
    assert parts[..k + 1][..k] == parts[..k];
  }
}
