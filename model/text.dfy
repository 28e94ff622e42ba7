/** The Python string operations the analysis script and the simulation launcher rely
    on: `str.split` with a non-empty separator, `sep.join`, `str.replace(old, "")`,
    `int()` of a decimal literal and `str()` of an integer. */
module Text {
  import opened Common

  /** `s.split(sep)`: the fields between the non-overlapping occurrences of `sep`, found
      left to right; there is always at least one field. */
  function Split(s: string, sep: string): (r: seq<string>)
    requires |sep| > 0
    ensures |r| >= 1
    decreases |s|
  {
    if |s| < |sep| then [s]
    else if s[..|sep|] == sep then [""] + Split(s[|sep|..], sep)
    else
      var rest := Split(s[1..], sep);
      [[s[0]] + rest[0]] + rest[1..]
  }

  /** `sep.join(parts)`. */
  function Join(parts: seq<string>, sep: string): string {
    if |parts| == 0 then ""
    else if |parts| == 1 then parts[0]
    else parts[0] + sep + Join(parts[1..], sep)
  }

  /** Joining the fields of a split with the same separator gives the string back. */
  lemma {:induction false} SplitJoin(s: string, sep: string)
    requires |sep| > 0
    ensures Join(Split(s, sep), sep) == s
    decreases |s|
  {
    if |s| < |sep| {
    } else if s[..|sep|] == sep {
      var rest := Split(s[|sep|..], sep);
      assert Split(s, sep) == [""] + rest;
      SplitJoin(s[|sep|..], sep);
      JoinEmptyFront(rest, sep);
      assert s == sep + s[|sep|..];
    } else {
      var rest := Split(s[1..], sep);
      assert Split(s, sep) == [[s[0]] + rest[0]] + rest[1..];
      SplitJoin(s[1..], sep);
      JoinFront(s[0], rest, sep);
      assert s == [s[0]] + s[1..];
    }
  }

  /** An empty first part leaves the separator at the front of the join. */
  lemma JoinEmptyFront(parts: seq<string>, sep: string)
    requires |parts| >= 1
    ensures Join([""] + parts, sep) == sep + Join(parts, sep)
  {
    assert ([""] + parts)[1..] == parts;
  }

  /** A character put before the first part is put before the join. */
  lemma JoinFront(c: char, parts: seq<string>, sep: string)
    requires |parts| >= 1
    ensures Join([[c] + parts[0]] + parts[1..], sep) == [c] + Join(parts, sep)
  {
    if |parts| > 1 {
      assert ([[c] + parts[0]] + parts[1..])[1..] == parts[1..];
    }
  }

  /** A field free of the separator's first character runs on into the first field of
      whatever follows it. */
  lemma {:induction false} SplitPrefix(p: string, t: string, sep: string)
    requires |sep| > 0 && sep[0] !in p
    ensures Split(p + t, sep) == [p + Split(t, sep)[0]] + Split(t, sep)[1..]
    decreases |p|
  {
    if |p| > 0 {
      SplitPrefix(p[1..], t, sep);
      var s := p + t;
      assert s[0] == p[0] && s[1..] == p[1..] + t;
      var r, rest := Split(t, sep), Split(p[1..] + t, sep);
      assert rest[0] == p[1..] + r[0] && rest[1..] == r[1..];
      assert [p[0]] + rest[0] == p + r[0];
      if |s| >= |sep| {
        assert s[..|sep|][0] == p[0];
      } else {
        assert Split(t, sep) == [t];
      }
    } else {
      var r := Split(t, sep);
      assert p + t == t && p + r[0] == r[0];
      assert r == [r[0]] + r[1..];
    }
  }

  /** Splitting a join gives the parts back when no part holds the separator's first
      character. */
  lemma {:induction false} JoinSplit(parts: seq<string>, sep: string)
    requires |sep| > 0 && |parts| >= 1
    requires forall i :: 0 <= i < |parts| ==> sep[0] !in parts[i]
    ensures Split(Join(parts, sep), sep) == parts
  {
    var p := parts[0];
    if |parts| == 1 {
      SplitPrefix(p, "", sep);
      assert p + "" == p;
    } else {
      var rest := parts[1..];
      JoinSplit(rest, sep);
      var t := sep + Join(rest, sep);
      assert t[..|sep|] == sep && t[|sep|..] == Join(rest, sep);
      assert Split(t, sep) == [""] + rest;
      SplitPrefix(p, t, sep);
      assert p + t == Join(parts, sep);
      assert p + "" == p;
    }
  }

  /** Joining two non-empty lists of parts puts one separator between their joins. */
  lemma {:induction false} JoinAppend(a: seq<string>, b: seq<string>, sep: string)
    requires |a| >= 1 && |b| >= 1
    ensures Join(a + b, sep) == Join(a, sep) + sep + Join(b, sep)
  {
    if |a| == 1 {
      assert (a + b)[1..] == b;
    } else {
      JoinAppend(a[1..], b, sep);
      assert (a + b)[1..] == a[1..] + b;
    }
  }

  /** The words of consecutive groups, in order. */
  function Flatten(groups: seq<seq<string>>): (r: seq<string>)
    ensures (forall i :: 0 <= i < |groups| ==> |groups[i]| >= 1) ==> |r| >= |groups|
  {
    if |groups| == 0 then [] else groups[0] + Flatten(groups[1..])
  }

  /** Each group joined on its own. */
  function JoinEach(groups: seq<seq<string>>, sep: string): (r: seq<string>)
    ensures |r| == |groups| && forall i :: 0 <= i < |groups| ==> r[i] == Join(groups[i], sep)
  {
    seq(|groups|, i requires 0 <= i < |groups| => Join(groups[i], sep))
  }

  /** Joining the joined groups is joining all their words, as long as no group is
      empty. */
  lemma {:induction false} JoinFlatten(groups: seq<seq<string>>, sep: string)
    requires forall i :: 0 <= i < |groups| ==> |groups[i]| >= 1
    ensures Join(Flatten(groups), sep) == Join(JoinEach(groups, sep), sep)
  {
    if |groups| == 1 {
      assert Flatten(groups) == groups[0] + [];
      assert groups[0] + [] == groups[0];
    } else if |groups| > 1 {
      var rest := groups[1..];
      JoinFlatten(rest, sep);
      JoinAppend(groups[0], Flatten(rest), sep);
      assert JoinEach(groups, sep)[1..] == JoinEach(rest, sep);
    }
  }

  /** A character in no word of any group is in no word of their flattening. */
  lemma {:induction false} FlattenAvoids(groups: seq<seq<string>>, c: char)
    requires forall i, j :: 0 <= i < |groups| && 0 <= j < |groups[i]| ==> c !in groups[i][j]
    ensures forall k :: 0 <= k < |Flatten(groups)| ==> c !in Flatten(groups)[k]
  {
    if |groups| > 0 {
      FlattenAvoids(groups[1..], c);
      var f := Flatten(groups);
      forall k | 0 <= k < |f|
        ensures c !in f[k]
      {
        if k >= |groups[0]| {
          assert f[k] == Flatten(groups[1..])[k - |groups[0]|];
        } else {
          assert f[k] == groups[0][k];
        }
      }
    }
  }

  /** `s.replace(pat, "")`: every non-overlapping occurrence of `pat`, found left to
      right, is removed. */
  function RemoveAll(s: string, pat: string): string
    requires |pat| > 0
    decreases |s|
  {
    if |s| < |pat| then s
    else if s[..|pat|] == pat then RemoveAll(s[|pat|..], pat)
    else [s[0]] + RemoveAll(s[1..], pat)
  }

  /** Removing every occurrence is joining the split fields with nothing between them,
      Python's own definition of `replace`. */
  lemma {:induction false} RemoveAllIsSplitJoin(s: string, pat: string)
    requires |pat| > 0
    ensures RemoveAll(s, pat) == Join(Split(s, pat), "")
    decreases |s|
  {
    if |s| < |pat| {
    } else if s[..|pat|] == pat {
      RemoveAllIsSplitJoin(s[|pat|..], pat);
      var rest := Split(s[|pat|..], pat);
      assert ([""] + rest)[1..] == rest;
    } else {
      RemoveAllIsSplitJoin(s[1..], pat);
      var rest := Split(s[1..], pat);
      if |rest| > 1 {
        assert ([[s[0]] + rest[0]] + rest[1..])[1..] == rest[1..];
      }
    }
  }

  /** A string free of the first character of `pat`, followed by `pat`, loses exactly
      that suffix. */
  lemma {:induction false} RemoveSuffix(p: string, pat: string)
    requires |pat| > 0 && pat[0] !in p
    ensures RemoveAll(p + pat, pat) == p
    decreases |p|
  {
    var s := p + pat;
    if |p| == 0 {
      assert s == pat && s[|pat|..] == "";
    } else {
      RemoveSuffix(p[1..], pat);
      assert s[..|pat|][0] == p[0];
      assert s[1..] == p[1..] + pat;
      assert p == [p[0]] + p[1..];
    }
  }

  predicate IsDigit(c: char) {
    '0' <= c <= '9'
  }

  predicate AllDigits(s: string) {
    forall i :: 0 <= i < |s| ==> IsDigit(s[i])
  }

  function DigitChar(d: nat): (c: char)
    requires d < 10
    ensures IsDigit(c) && c as int - '0' as int == d
  {
    ('0' as int + d) as char
  }

  /** `str(n)` for a natural number: its decimal digits, without leading zeros. */
  function Decimal(n: nat): (r: string)
    ensures |r| >= 1 && AllDigits(r)
  {
    if n < 10 then [DigitChar(n)] else Decimal(n / 10) + [DigitChar(n % 10)]
  }

  /** The value of a string of decimal digits. */
  function DigitsValue(s: string): nat
    requires AllDigits(s)
  {
    if |s| == 0 then 0 else DigitsValue(s[..|s| - 1]) * 10 + (s[|s| - 1] as int - '0' as int)
  }

  lemma {:induction false} DecimalValue(n: nat)
    ensures DigitsValue(Decimal(n)) == n
  {
    if n >= 10 {
      DecimalValue(n / 10);
      var s := Decimal(n);
      assert s[..|s| - 1] == Decimal(n / 10);
    }
  }

  /** `str(i)` for an integer. */
  function IntString(i: int): (r: string)
    ensures |r| >= 1 && ' ' !in r && '_' !in r && '.' !in r
    ensures forall k :: 0 < k < |r| ==> IsDigit(r[k])
  {
    if i < 0 then "-" + Decimal(-i) else Decimal(i)
  }

  /** The whitespace `int()` strips around its argument (the ASCII part of it). */
  predicate IsSpace(c: char) {
    c == ' ' || 9 <= c as int <= 13 || 28 <= c as int <= 31
  }

  function TrimStart(s: string): (r: string)
    ensures |r| <= |s|
  {
    if |s| > 0 && IsSpace(s[0]) then TrimStart(s[1..]) else s
  }

  function TrimEnd(s: string): (r: string)
    ensures |r| <= |s|
  {
    if |s| > 0 && IsSpace(s[|s| - 1]) then TrimEnd(s[..|s| - 1]) else s
  }

  /** `int(s)` in base 10: surrounding whitespace, an optional sign, then one or more
      decimal digits; anything else raises ValueError. Python also accepts single
      underscores between digits (`int("1_000")`); this parser refuses them. */
  function ParseInt(s: string): (r: Result<int>)
    ensures r.Err? ==> r.error.ValueError?
  {
    var t := TrimEnd(TrimStart(s));
    var signed := |t| > 0 && (t[0] == '-' || t[0] == '+');
    var digits := if signed then t[1..] else t;
    if |digits| == 0 || !AllDigits(digits) then Err(ValueError("invalid literal for int() with base 10"))
    else if signed && t[0] == '-' then Ok(-(DigitsValue(digits) as int))
    else Ok(DigitsValue(digits))
  }

  /** `int(str(i)) == i`. */
  lemma IntStringRoundTrip(i: int)
    ensures ParseInt(IntString(i)) == Ok(i)
  {
    if i < 0 {
      NegativeRoundTrip(-i);
    } else {
      NaturalRoundTrip(i);
    }
  }

  lemma NaturalRoundTrip(n: nat)
    ensures ParseInt(Decimal(n)) == Ok(n)
  {
    ParseDigits(Decimal(n));
    DecimalValue(n);
  }

  lemma NegativeRoundTrip(n: nat)
    ensures ParseInt("-" + Decimal(n)) == Ok(-(n as int))
  {
    var s := "-" + Decimal(n);
    assert s[1..] == Decimal(n);
    ParseNegative(s);
    DecimalValue(n);
  }

  lemma ParseDigits(s: string)
    requires |s| >= 1 && AllDigits(s)
    ensures ParseInt(s) == Ok(DigitsValue(s))
  {
    TrimUnspaced(s);
  }

  lemma ParseNegative(s: string)
    requires |s| >= 2 && s[0] == '-' && AllDigits(s[1..])
    ensures ParseInt(s) == Ok(-(DigitsValue(s[1..]) as int))
  {
    assert IsDigit(s[1..][|s| - 2]);
    TrimUnspaced(s);
  }

  lemma TrimUnspaced(s: string)
    requires |s| >= 1 && (s[0] == '-' || IsDigit(s[0])) && IsDigit(s[|s| - 1])
    ensures TrimEnd(TrimStart(s)) == s
  {
  }
}
