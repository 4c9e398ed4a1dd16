/** The string operations the keyword search is built from: `toLowerCase`,
    `split(" ")`, dropping empty pieces, `includes`, and `String(n)` of an
    integer id. */
module Text {

  /** `x` and `y` are the same character, or the upper- and lower-case
      forms of one ASCII letter. */
  predicate SameLetter(x: char, y: char)
  {
    || x == y
    || ('A' <= x <= 'Z' && y as int == x as int + 32)
    || ('A' <= y <= 'Z' && x as int == y as int + 32)
  }

  /** `toLowerCase` on one character, for the ASCII letters: the result is
      never an upper-case letter and is the same letter as `c`. */
  function LowerChar(c: char): (r: char)
    ensures !('A' <= r <= 'Z')
    ensures SameLetter(c, r)
    ensures !('A' <= c <= 'Z') ==> r == c
  {
    if 'A' <= c <= 'Z' then (c as int + 32) as char else c
  }

  function Lower(s: string): (r: string)
    ensures |r| == |s|
  {
    if s == [] then [] else [LowerChar(s[0])] + Lower(s[1..])
  }

  lemma {:induction false} LowerAt(s: string, i: int)
    requires 0 <= i < |s|
    ensures Lower(s)[i] == LowerChar(s[i])
  {
    if i > 0 {
      LowerAt(s[1..], i - 1);
    }
  }

  /** Two strings that differ only in the case of their letters. */
  predicate SameIgnoringCase(a: string, b: string)
  {
    |a| == |b| && forall i :: 0 <= i < |a| ==> SameLetter(a[i], b[i])
  }

  /** Two strings lower-case to the same text exactly when they differ only
      in the case of their letters. */
  lemma {:induction false} LowerIgnoresCase(a: string, b: string)
    ensures Lower(a) == Lower(b) <==> SameIgnoringCase(a, b)
  {
    if a != [] && b != [] {
      LowerIgnoresCase(a[1..], b[1..]);
      assert Lower(a) == [LowerChar(a[0])] + Lower(a[1..]);
      assert Lower(b) == [LowerChar(b[0])] + Lower(b[1..]);
      assert Lower(a) == Lower(b) <==> LowerChar(a[0]) == LowerChar(b[0]) && Lower(a[1..]) == Lower(b[1..]) by {
        if Lower(a) == Lower(b) {
          assert Lower(a)[0] == Lower(b)[0] && Lower(a)[1..] == Lower(b)[1..];
        }
      }
      assert SameIgnoringCase(a, b) <==> SameLetter(a[0], b[0]) && SameIgnoringCase(a[1..], b[1..]) by {
        assert forall i :: 0 <= i < |a| - 1 ==> a[1..][i] == a[i + 1];
        assert forall i :: 0 <= i < |b| - 1 ==> b[1..][i] == b[i + 1];
        if SameLetter(a[0], b[0]) && SameIgnoringCase(a[1..], b[1..]) {
          forall i | 0 <= i < |a| ensures SameLetter(a[i], b[i]) {
            if i > 0 {
              assert a[i] == a[1..][i - 1] && b[i] == b[1..][i - 1];
            }
          }
        }
      }
    }
  }

  /** Lower-casing leaves exactly the spaces where they were. */
  lemma LowerKeepsSpaces(s: string, i: int)
    requires 0 <= i < |s|
    ensures Lower(s)[i] == ' ' <==> s[i] == ' '
  {
    LowerAt(s, i);
  }

  /** A string is all spaces exactly when its lower-cased form is. */
  lemma LowerAllSpaces(s: string)
    ensures AllSpaces(Lower(s)) <==> AllSpaces(s)
  {
    forall i | 0 <= i < |s| ensures Lower(s)[i] == ' ' <==> s[i] == ' ' {
      LowerKeepsSpaces(s, i);
    }
  }

  /** A subsequence is never longer than the sequence it is taken from. */
  lemma {:induction false} SubsequenceNoLonger<T>(a: seq<T>, b: seq<T>)
    requires IsSubsequence(a, b)
    ensures |a| <= |b|
    decreases |b|
  {
    if a != [] {
      if a[0] == b[0] && IsSubsequence(a[1..], b[1..]) {
        SubsequenceNoLonger(a[1..], b[1..]);
      } else {
        SubsequenceNoLonger(a, b[1..]);
      }
    }
  }

  /** `s.split(" ")`: the pieces between single spaces. Consecutive, leading
      and trailing spaces give empty pieces, so there is always one piece more
      than there are spaces. */
  function Split(s: string): (r: seq<string>)
    ensures |r| >= 1
  {
    if s == [] then [""]
    else
      var rest := Split(s[1..]);
      if s[0] == ' ' then [""] + rest else [[s[0]] + rest[0]] + rest[1..]
  }

  /** `parts.join(" ")`, the inverse of `Split`. */
  function Join(parts: seq<string>): string
    requires |parts| >= 1
  {
    if |parts| == 1 then parts[0] else parts[0] + " " + Join(parts[1..])
  }

  function SpaceCount(s: string): nat
  {
    if s == [] then 0 else (if s[0] == ' ' then 1 else 0) + SpaceCount(s[1..])
  }

  /** Splitting loses nothing: joining the pieces with single spaces gives the
      string back, and there is one piece per space plus one. */
  lemma {:induction false} JoinSplit(s: string)
    ensures Join(Split(s)) == s
    ensures |Split(s)| == SpaceCount(s) + 1
  {
    if s != [] {
      var rest := Split(s[1..]);
      JoinSplit(s[1..]);
      if s[0] == ' ' {
        assert Split(s) == [""] + rest;
        assert Split(s)[1..] == rest;
      } else if |rest| == 1 {
        assert Split(s) == [[s[0]] + rest[0]];
        assert s == [s[0]] + s[1..];
      } else {
        var first := [s[0]] + rest[0];
        assert Split(s) == [first] + rest[1..];
        assert Split(s)[1..] == rest[1..];
        calc {
          Join(Split(s));
          first + " " + Join(rest[1..]);
          [s[0]] + (rest[0] + " " + Join(rest[1..]));
          [s[0]] + Join(rest);
          [s[0]] + s[1..];
          s;
        }
      }
    }
  }

  /** No piece of a split contains the separator. */
  lemma {:induction false} SplitPiecesHaveNoSpace(s: string)
    ensures forall k :: 0 <= k < |Split(s)| ==> ' ' !in Split(s)[k]
  {
    if s != [] {
      var rest := Split(s[1..]);
      SplitPiecesHaveNoSpace(s[1..]);
      if s[0] != ' ' {
        assert ' ' !in [s[0]] + rest[0];
        assert forall k :: 1 <= k < |Split(s)| ==> Split(s)[k] == rest[k];
      } else {
        assert forall k :: 1 <= k < |Split(s)| ==> Split(s)[k] == rest[k - 1];
      }
    }
  }

  /** A string without spaces is a single piece. */
  lemma {:induction false} SplitWithoutSpace(s: string)
    requires ' ' !in s
    ensures Split(s) == [s]
  {
    if s != [] {
      assert ' ' !in s[1..] by { assert forall c :: c in s[1..] ==> c in s; }
      SplitWithoutSpace(s[1..]);
      assert [s[0]] + s[1..] == s;
    }
  }

  /** `a` is `b` with some elements left out and the rest in order. */
  ghost predicate IsSubsequence<T>(a: seq<T>, b: seq<T>)
    decreases |b|
  {
    if a == [] then true
    else if b == [] then false
    else (a[0] == b[0] && IsSubsequence(a[1..], b[1..])) || IsSubsequence(a, b[1..])
  }

  /** `.filter(Boolean)` on strings: keeps the non-empty ones, in order. */
  function NonEmpty(parts: seq<string>): (r: seq<string>)
    ensures forall k :: 0 <= k < |r| ==> r[k] != "" && r[k] in parts
    ensures forall p :: p in parts && p != "" ==> p in r
    ensures forall p :: multiset(r)[p] == if p != "" then multiset(parts)[p] else 0
  {
    if parts == [] then []
    else
      assert parts == [parts[0]] + parts[1..];
      if parts[0] == "" then NonEmpty(parts[1..])
      else [parts[0]] + NonEmpty(parts[1..])
  }

  /** Dropping the empty pieces keeps the others in their order. */
  lemma {:induction false} NonEmptyIsSubsequence(parts: seq<string>)
    ensures IsSubsequence(NonEmpty(parts), parts)
  {
    if parts != [] {
      NonEmptyIsSubsequence(parts[1..]);
      var r := NonEmpty(parts);
      if parts[0] != "" {
        assert r[0] == parts[0] && r[1..] == NonEmpty(parts[1..]);
      } else {
        assert r == NonEmpty(parts[1..]);
      }
    }
  }

  predicate AllSpaces(s: string)
  {
    forall i :: 0 <= i < |s| ==> s[i] == ' '
  }

  /** A split has no non-empty piece exactly when the string is nothing but
      spaces. */
  lemma {:induction false} NoPiecesIffAllSpaces(s: string)
    ensures NonEmpty(Split(s)) == [] <==> AllSpaces(s)
  {
    if s != [] {
      var rest := Split(s[1..]);
      NoPiecesIffAllSpaces(s[1..]);
      if s[0] == ' ' {
        assert Split(s) == [""] + rest;
        assert NonEmpty(Split(s)) == NonEmpty(rest);
        assert AllSpaces(s) <==> AllSpaces(s[1..]) by {
          assert forall i :: 1 <= i < |s| ==> s[i] == s[1..][i - 1];
        }
      } else {
        assert Split(s)[0] != "";
        assert NonEmpty(Split(s)) != [];
        assert !AllSpaces(s) by { assert s[0] != ' '; }
      }
    }
  }

  /** `s.startsWith(p)`. */
  predicate IsPrefix(p: string, s: string)
  {
    |p| <= |s| && s[..|p|] == p
  }

  /** `needle` occurs in `hay` at offset `i`. */
  predicate OccursAt(hay: string, needle: string, i: int)
  {
    0 <= i && i + |needle| <= |hay| && hay[i..i + |needle|] == needle
  }

  /** `hay.includes(needle)`: some suffix of `hay` starts with `needle`, that
      is, there is an offset where `needle` occurs. */
  predicate Contains(hay: string, needle: string)
    ensures Contains(hay, needle) <==> exists i :: OccursAt(hay, needle, i)
  {
    if IsPrefix(needle, hay) then
      assert OccursAt(hay, needle, 0);
      true
    else if hay == [] then
      assert forall i :: !OccursAt(hay, needle, i);
      false
    else
      assert forall i :: OccursAt(hay[1..], needle, i) ==> OccursAt(hay, needle, i + 1);
      assert forall i :: OccursAt(hay, needle, i) ==> OccursAt(hay[1..], needle, i - 1);
      Contains(hay[1..], needle)
  }

  function DigitChar(d: int): char
    requires 0 <= d < 10
  {
    ('0' as int + d) as char
  }

  function DigitValue(c: char): int
  {
    if '0' <= c <= '9' then c as int - '0' as int else 0
  }

  /** The decimal digits of `n`, most significant first, no leading zeros. */
  function NatToDecimal(n: nat): (r: string)
    ensures |r| >= 1
    ensures forall k :: 0 <= k < |r| ==> '0' <= r[k] <= '9'
    ensures r[0] == '0' <==> n == 0
    ensures n == 0 ==> r == "0"
    decreases n
  {
    if n < 10 then [DigitChar(n)] else NatToDecimal(n / 10) + [DigitChar(n % 10)]
  }

  /** `String(i)` for an integer: a minus sign exactly for a negative
      number, then digits; it reads back as `i`, so distinct ids print
      differently. */
  function IntToDecimal(i: int): (r: string)
    ensures |r| >= 1 && (r[0] == '-' <==> i < 0)
    ensures forall k :: (if i < 0 then 1 else 0) <= k < |r| ==> '0' <= r[k] <= '9'
    ensures i != 0 ==> |r| > (if i < 0 then 1 else 0) && r[if i < 0 then 1 else 0] != '0'
    ensures r == "0" <==> i == 0
    ensures ParseInt(r) == i
  {
    var digits := NatToDecimal(if i < 0 then -i else i);
    DecimalRoundTrip(if i < 0 then -i else i);
    if i < 0 then
      assert ("-" + digits)[1..] == digits;
      "-" + digits
    else
      digits
  }

  /** Reads a string of digits back as a number. */
  function DecimalValue(s: string): int
    decreases |s|
  {
    if s == [] then 0 else DecimalValue(s[..|s| - 1]) * 10 + DigitValue(s[|s| - 1])
  }

  /** `NatToDecimal` loses nothing: reading its digits back gives `n`. */
  lemma {:induction false} DecimalRoundTrip(n: nat)
    ensures DecimalValue(NatToDecimal(n)) == n
    decreases n
  {
    var s := NatToDecimal(n);
    if n >= 10 {
      var q, d := n / 10, n % 10;
      DecimalRoundTrip(q);
      assert s == NatToDecimal(q) + [DigitChar(d)];
      assert s[..|s| - 1] == NatToDecimal(q);
      assert DigitValue(s[|s| - 1]) == d;
      assert n == q * 10 + d;
    }
  }

  /** A string of digits in canonical form: not empty, and no leading zero
      unless it is the single digit `0`. */
  predicate Canonical(s: string)
  {
    && |s| >= 1
    && (forall k :: 0 <= k < |s| ==> '0' <= s[k] <= '9')
    && (s[0] == '0' ==> |s| == 1)
  }

  /** Digits that start with a non-zero digit denote a positive number. */
  lemma {:induction false} LeadingDigitPositive(s: string)
    requires |s| >= 1 && forall k :: 0 <= k < |s| ==> '0' <= s[k] <= '9'
    requires s[0] != '0'
    ensures DecimalValue(s) >= 1
    decreases |s|
  {
    if |s| > 1 {
      var init := s[..|s| - 1];
      assert init[0] == s[0];
      assert forall k :: 0 <= k < |init| ==> init[k] == s[k];
      LeadingDigitPositive(init);
    }
  }

  /** `NatToDecimal(n)` is the only canonical digit string denoting `n`. */
  lemma {:induction false} DecimalUnique(s: string, n: nat)
    requires Canonical(s) && DecimalValue(s) == n
    ensures s == NatToDecimal(n)
    decreases |s|
  {
    var d := DigitValue(s[|s| - 1]);
    assert 0 <= d < 10;
    if |s| == 1 {
      assert n == d;
      assert s == [DigitChar(d)];
    } else {
      var init := s[..|s| - 1];
      assert init[0] == s[0];
      assert forall k :: 0 <= k < |init| ==> init[k] == s[k];
      LeadingDigitPositive(init);
      var m := DecimalValue(init);
      assert n == m * 10 + d;
      assert n / 10 == m && n % 10 == d;
      DecimalUnique(init, m);
      assert s == init + [s[|s| - 1]];
      assert s[|s| - 1] == DigitChar(d);
    }
  }

  /** Reads `String(i)` back: an optional minus sign, then the digits. */
  function ParseInt(s: string): int
  {
    if s != [] && s[0] == '-' then -DecimalValue(s[1..]) else DecimalValue(s)
  }
}
