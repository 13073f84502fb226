/** The string helpers of Helpers.cpp: character classes, splitting, trimming,
    prefix/suffix tests, padding, single-character replacement and scanning.
    Strings are sequences of characters; the C character classes are those of the
    "C" locale. */
module Strings {
  import opened Common

  // ---------------------------------------------------------------------------
  // Character classes (`isspace`, `isdigit`, `isalpha` in the "C" locale)
  // ---------------------------------------------------------------------------

  // A `char` stands for one byte of a `std::string`. A byte of 0x80 or above
  // is negative as a signed `char`, where the classification functions are
  // undefined; here such a byte is neither space, digit nor letter.

  /** Space, tab, newline, vertical tab, form feed, carriage return. */
  predicate IsSpace(c: char)
  {
    c == ' ' || ('\t' <= c <= '\r')
  }

  predicate IsDigit(c: char)
  {
    '0' <= c <= '9'
  }

  predicate IsAlpha(c: char)
  {
    ('a' <= c <= 'z') || ('A' <= c <= 'Z')
  }

  predicate AllSpace(s: string)
  {
    forall k :: 0 <= k < |s| ==> IsSpace(s[k])
  }

  predicate AllDigits(s: string)
  {
    forall k :: 0 <= k < |s| ==> IsDigit(s[k])
  }

  /** Every character of `s` at an index in `[lo, hi)` is whitespace. */
  predicate SpaceBetween(s: string, lo: int, hi: int)
  {
    forall k :: lo <= k < hi && 0 <= k < |s| ==> IsSpace(s[k])
  }

  /** `r` occurs in `s` at offset `a`, and everything around it is whitespace. */
  predicate SpaceAround(s: string, r: string, a: int)
  {
    0 <= a && a + |r| <= |s| && s[a..a + |r|] == r
    && SpaceBetween(s, 0, a) && SpaceBetween(s, a + |r|, |s|)
  }

  // ---------------------------------------------------------------------------
  // Trim, TrimLeadingWhitespace, TrimTrailingWhitespace
  // ---------------------------------------------------------------------------

  /** The forward loop of the Trim family: advance `iter` over whitespace, but never
      past `riter`. */
  function SkipSpaceForward(s: string, i: nat, stop: nat): (k: nat)
    requires i <= stop < |s|
    ensures i <= k <= stop
    ensures SpaceBetween(s, i, k)
    ensures k == stop || !IsSpace(s[k])
    decreases stop - i
  {
    if i != stop && IsSpace(s[i]) then SkipSpaceForward(s, i + 1, stop) else i
  }

  /** The backward loop of the Trim family: retreat `riter` over whitespace, but
      never past `iter`. */
  function SkipSpaceBackward(s: string, r: nat, stop: nat): (k: nat)
    requires stop <= r < |s|
    ensures stop <= k <= r
    ensures SpaceBetween(s, k + 1, r + 1)
    ensures k == stop || !IsSpace(s[k])
    decreases r - stop
  {
    if r != stop && IsSpace(s[r]) then SkipSpaceBackward(s, r - 1, stop) else r
  }

  /** Removes leading and trailing whitespace. The two cursors never cross, so a
      non-empty input always keeps at least one character: an all-whitespace input
      keeps its last character. */
  function Trim(s: string): (r: string)
    ensures |s| == 0 ==> r == []
    ensures |s| > 0 ==> 1 <= |r|
    ensures exists a :: SpaceAround(s, r, a)
    ensures |r| >= 2 ==> !IsSpace(r[0]) && !IsSpace(r[|r| - 1])
    ensures !AllSpace(s) ==> !IsSpace(r[0]) && !IsSpace(r[|r| - 1])
    ensures |s| > 0 && AllSpace(s) ==> r == [s[|s| - 1]]
  {
    if |s| == 0 then
      assert SpaceAround(s, s, 0);
      s
    else
      var a := SkipSpaceForward(s, 0, |s| - 1);
      var b := SkipSpaceBackward(s, |s| - 1, a);
      assert SpaceAround(s, s[a..b + 1], a);
      s[a..b + 1]
  }

  /** Removes leading whitespace; an all-whitespace input keeps its last character. */
  function TrimLeadingWhitespace(s: string): (r: string)
    ensures |s| == 0 ==> r == []
    ensures |s| > 0 ==> 1 <= |r| <= |s| && r == s[|s| - |r|..] && SpaceBetween(s, 0, |s| - |r|)
    ensures |r| >= 2 || !AllSpace(s) ==> !IsSpace(r[0])
    ensures |s| > 0 && AllSpace(s) ==> r == [s[|s| - 1]]
  {
    if |s| == 0 then s
    else
      var a := SkipSpaceForward(s, 0, |s| - 1);
      s[a..]
  }

  /** Removes trailing whitespace; an all-whitespace input keeps its FIRST character. */
  function TrimTrailingWhitespace(s: string): (r: string)
    ensures |s| == 0 ==> r == []
    ensures |s| > 0 ==> 1 <= |r| <= |s| && r == s[..|r|] && SpaceBetween(s, |r|, |s|)
    ensures |r| >= 2 || !AllSpace(s) ==> !IsSpace(r[|r| - 1])
    ensures |s| > 0 && AllSpace(s) ==> r == [s[0]]
  {
    if |s| == 0 then s
    else
      var b := SkipSpaceBackward(s, |s| - 1, 0);
      s[..b + 1]
  }

  /** Two substrings of `s` that each begin and end with a non-whitespace character
      and have only whitespace around them are the same substring. */
  lemma SpaceAroundUnique(s: string, r1: string, a1: int, r2: string, a2: int)
    requires SpaceAround(s, r1, a1) && SpaceAround(s, r2, a2)
    requires |r1| > 0 && |r2| > 0
    requires !IsSpace(r1[0]) && !IsSpace(r1[|r1| - 1])
    requires !IsSpace(r2[0]) && !IsSpace(r2[|r2| - 1])
    ensures r1 == r2
  {
    assert s[a1] == r1[0] && s[a2] == r2[0];
    assert s[a1 + |r1| - 1] == r1[|r1| - 1] && s[a2 + |r2| - 1] == r2[|r2| - 1];
  }

  /** A piece of a string with some non-whitespace character that begins and ends
      with non-whitespace and has only whitespace around it is what Trim returns. */
  lemma TrimIsTheAroundPiece(s: string, r: string, a: int)
    requires !AllSpace(s) && SpaceAround(s, r, a)
    requires |r| > 0 && !IsSpace(r[0]) && !IsSpace(r[|r| - 1])
    ensures r == Trim(s)
  {
    var t := Trim(s);
    var b :| SpaceAround(s, t, b);
    SpaceAroundUnique(s, r, a, t, b);
  }

  /** Trimming twice changes nothing. */
  lemma TrimIdempotent(s: string)
    ensures Trim(Trim(s)) == Trim(s)
  {
    var r := Trim(s);
    if |s| > 0 && !AllSpace(s) {
      assert !AllSpace(r) by { assert !IsSpace(r[0]); }
      var a' :| SpaceAround(r, Trim(r), a');
      assert SpaceAround(r, r, 0);
      SpaceAroundUnique(r, r, 0, Trim(r), a');
    } else if |s| > 0 {
      var a' :| SpaceAround(r, Trim(r), a');
      assert Trim(r) == r[a'..a' + |Trim(r)|];
    }
  }

  /** Whitespace in a prefix of `s` is whitespace in `s`. */
  lemma SpaceBetweenPrefix(s: string, n: nat, lo: int, hi: int)
    requires n <= |s| && hi <= n && SpaceBetween(s[..n], lo, hi)
    ensures SpaceBetween(s, lo, hi)
  {
    forall k | lo <= k < hi && 0 <= k < |s| ensures IsSpace(s[k]) {
      assert s[k] == s[..n][k];
    }
  }

  /** Whitespace in a suffix of `s` is whitespace in `s`, shifted by the suffix's offset. */
  lemma SpaceBetweenSuffix(s: string, a: nat, lo: int, hi: int)
    requires a <= |s| && 0 <= lo && SpaceBetween(s[a..], lo, hi)
    ensures SpaceBetween(s, a + lo, a + hi)
  {
    forall k | a + lo <= k < a + hi && 0 <= k < |s| ensures IsSpace(s[k]) {
      assert s[k] == s[a..][k - a];
    }
  }

  /** Trimming the trailing and then the leading whitespace of a string with some
      non-whitespace character leaves a piece with only whitespace around it that
      begins and ends with non-whitespace. */
  lemma TrailingThenLeadingAround(s: string)
    requires !AllSpace(s)
    ensures var lt := TrimLeadingWhitespace(TrimTrailingWhitespace(s));
      && |lt| > 0 && !IsSpace(lt[0]) && !IsSpace(lt[|lt| - 1])
      && SpaceAround(s, lt, |TrimTrailingWhitespace(s)| - |lt|)
  {
    var t := TrimTrailingWhitespace(s);
    var lt := TrimLeadingWhitespace(t);
    assert !AllSpace(t) by { assert !IsSpace(t[|t| - 1]); }
    var a := |t| - |lt|;
    assert lt[|lt| - 1] == t[|t| - 1];
    assert t == s[..|t|];
    assert s[a..a + |lt|] == lt by { assert s[a..|t|] == s[..|t|][a..]; }
    SpaceBetweenPrefix(s, |t|, 0, a);
  }

  /** When the input holds some non-whitespace character, trimming the trailing
      whitespace and then the leading whitespace is the same as Trim. */
  lemma TrimIsTrailingThenLeading(s: string)
    requires !AllSpace(s)
    ensures TrimLeadingWhitespace(TrimTrailingWhitespace(s)) == Trim(s)
  {
    var t := TrimTrailingWhitespace(s);
    var lt := TrimLeadingWhitespace(t);
    TrailingThenLeadingAround(s);
    TrimIsTheAroundPiece(s, lt, |t| - |lt|);
  }

  /** Trimming the leading and then the trailing whitespace of a string with some
      non-whitespace character leaves a piece with only whitespace around it that
      begins and ends with non-whitespace. */
  lemma LeadingThenTrailingAround(s: string)
    requires !AllSpace(s)
    ensures var tl := TrimTrailingWhitespace(TrimLeadingWhitespace(s));
      && |tl| > 0 && !IsSpace(tl[0]) && !IsSpace(tl[|tl| - 1])
      && SpaceAround(s, tl, |s| - |TrimLeadingWhitespace(s)|)
  {
    var l := TrimLeadingWhitespace(s);
    var tl := TrimTrailingWhitespace(l);
    assert !AllSpace(l) by { assert !IsSpace(l[0]); }
    var a := |s| - |l|;
    assert tl[0] == l[0];
    assert l == s[a..];
    assert s[a..a + |tl|] == tl by { assert s[a..a + |tl|] == s[a..][..|tl|]; }
    SpaceBetweenSuffix(s, a, |tl|, |l|);
  }

  /** When the input holds some non-whitespace character, trimming the leading
      whitespace and then the trailing whitespace is the same as Trim. */
  lemma TrimIsLeadingThenTrailing(s: string)
    requires !AllSpace(s)
    ensures TrimTrailingWhitespace(TrimLeadingWhitespace(s)) == Trim(s)
  {
    var l := TrimLeadingWhitespace(s);
    var tl := TrimTrailingWhitespace(l);
    LeadingThenTrailingAround(s);
    TrimIsTheAroundPiece(s, tl, |s| - |l|);
  }

  /** On an all-whitespace input the two orders disagree with Trim: Trim keeps the
      last character, trailing-then-leading keeps the first. */
  lemma AllSpaceTrimOrderMatters()
    ensures Trim(" \t") == "\t"
    ensures TrimLeadingWhitespace(TrimTrailingWhitespace(" \t")) == " "
  {
  }

  // ---------------------------------------------------------------------------
  // Split and SplitNoStrip
  // ---------------------------------------------------------------------------

  /** `s` with every occurrence of `d` removed. */
  function Without(s: string, d: char): (r: string)
    ensures d !in r
  {
    if |s| == 0 then [] else (if s[0] == d then [] else [s[0]]) + Without(s[1..], d)
  }

  lemma {:induction false} WithoutAppend(a: string, b: string, d: char)
    ensures Without(a + b, d) == Without(a, d) + Without(b, d)
    decreases |a|
  {
    if |a| == 0 {
      assert a + b == b;
    } else {
      var h := if a[0] == d then [] else [a[0]];
      assert (a + b)[0] == a[0] && (a + b)[1..] == a[1..] + b;
      WithoutAppend(a[1..], b, d);
      assert h + (Without(a[1..], d) + Without(b, d)) == h + Without(a[1..], d) + Without(b, d);
    }
  }

  lemma {:induction false} WithoutAllDelims(s: string, d: char)
    requires forall k :: 0 <= k < |s| ==> s[k] == d
    ensures Without(s, d) == []
    decreases |s|
  {
    if |s| > 0 { WithoutAllDelims(s[1..], d); }
  }

  lemma {:induction false} WithoutNoDelims(s: string, d: char)
    requires d !in s
    ensures Without(s, d) == s
    decreases |s|
  {
    if |s| > 0 { WithoutNoDelims(s[1..], d); }
  }

  /** The pieces glued together with nothing in between. */
  function Concat(parts: seq<string>): string
  {
    if |parts| == 0 then [] else parts[0] + Concat(parts[1..])
  }

  /** The pieces glued together with `d` between neighbours. */
  function JoinWith(parts: seq<string>, d: char): string
  {
    if |parts| == 0 then []
    else if |parts| == 1 then parts[0]
    else parts[0] + [d] + JoinWith(parts[1..], d)
  }

  /** The pieces that are not empty, in order. */
  function NonEmpty(parts: seq<string>): seq<string>
  {
    if |parts| == 0 then []
    else if |parts[0]| == 0 then NonEmpty(parts[1..])
    else [parts[0]] + NonEmpty(parts[1..])
  }

  /** `while (i != strLen && str[i] == delim) ++i;` */
  function SkipDelims(s: string, d: char, i: nat): (k: nat)
    requires i <= |s|
    ensures i <= k <= |s|
    ensures forall t :: i <= t < k ==> s[t] == d
    ensures k == |s| || s[k] != d
    decreases |s| - i
  {
    if i != |s| && s[i] == d then SkipDelims(s, d, i + 1) else i
  }

  /** `while (j != strLen && str[j] != delim) ++j;` */
  function ScanToDelim(s: string, d: char, i: nat): (k: nat)
    requires i <= |s|
    ensures i <= k <= |s|
    ensures d !in s[i..k]
    ensures k == |s| || s[k] == d
    decreases |s| - i
  {
    if i != |s| && s[i] != d then ScanToDelim(s, d, i + 1) else i
  }

  /** One pass of the outer loop of Split from index `i` onwards: skip delimiters,
      take the maximal run of non-delimiters, repeat. */
  function SplitFrom(s: string, d: char, i: nat): (r: seq<string>)
    requires i <= |s|
    ensures forall k :: 0 <= k < |r| ==> |r[k]| > 0 && d !in r[k]
    decreases |s| - i
  {
    if i == |s| then
      []
    else
      var i' := SkipDelims(s, d, i);
      var j := ScanToDelim(s, d, i');
      if i' != j then [s[i'..j]] + SplitFrom(s, d, j) else []
  }

  /** Removing the delimiters from a run of delimiters followed by a delimiter-free
      stretch leaves just that stretch. */
  lemma WithoutRun(s: string, d: char, i: nat, i': nat, j: nat)
    requires i <= i' <= j <= |s|
    requires forall t :: i <= t < i' ==> s[t] == d
    requires d !in s[i'..j]
    ensures Without(s[i..], d) == s[i'..j] + Without(s[j..], d)
  {
    SliceInThree(s, i, i', j);
    var x, y, z := s[i..i'], s[i'..j], s[j..];
    assert forall t :: 0 <= t < |x| ==> x[t] == d by {
      forall t | 0 <= t < |x| ensures x[t] == d { assert x[t] == s[i + t]; }
    }
    WithoutRunThenClean(x, y, d);
    WithoutAppend(x + y, z, d);
  }

  /** Removing the delimiters from a run of delimiters followed by a delimiter-free
      string leaves that string. */
  lemma WithoutRunThenClean(x: string, y: string, d: char)
    requires forall t :: 0 <= t < |x| ==> x[t] == d
    requires d !in y
    ensures Without(x + y, d) == y
  {
    WithoutAppend(x, y, d);
    WithoutAllDelims(x, d);
    WithoutNoDelims(y, d);
    assert [] + y == y;
  }

  lemma SliceInThree(s: string, i: nat, i': nat, j: nat)
    requires i <= i' <= j <= |s|
    ensures s[i..] == s[i..i'] + s[i'..j] + s[j..]
  {
  }

  /** The pieces Split finds from `i` onwards, glued together, are the rest of the
      input minus its delimiters. */
  lemma {:induction false} SplitFromConcat(s: string, d: char, i: nat)
    requires i <= |s|
    ensures Concat(SplitFrom(s, d, i)) == Without(s[i..], d)
    decreases |s| - i
  {
    if i < |s| {
      var i' := SkipDelims(s, d, i);
      var j := ScanToDelim(s, d, i');
      WithoutRun(s, d, i, i', j);
      if i' != j {
        var rest := SplitFrom(s, d, j);
        SplitFromConcat(s, d, j);
        assert ([s[i'..j]] + rest)[1..] == rest;
      } else {
        assert j == |s|;
      }
    }
  }

  /** Splits on `delim`, dropping every empty piece: the pieces are non-empty, hold
      no delimiter, and glued back together give the input minus its delimiters. */
  function Split(s: string, d: char): (r: seq<string>)
    ensures forall k :: 0 <= k < |r| ==> |r[k]| > 0 && d !in r[k]
    ensures Concat(r) == Without(s, d)
  {
    SplitFromConcat(s, d, 0);
    assert s[0..] == s;
    SplitFrom(s, d, 0)
  }

  /** The loop of SplitNoStrip with the guard `i < strLen`: the fields between
      delimiters, empty ones included, without a trailing empty field. */
  function FieldsFrom(s: string, d: char, i: nat): (r: seq<string>)
    requires i <= |s|
    ensures forall k :: 0 <= k < |r| ==> d !in r[k]
    ensures i < |s| ==> |r| > 0
    decreases |s| - i
  {
    if i == |s| then
      []
    else
      var k := ScanToDelim(s, d, i);
      [s[i..k]] + (if k < |s| then FieldsFrom(s, d, k + 1) else [])
  }

  /** Joining a list of at least two pieces puts the delimiter after the first. */
  lemma JoinWithCons(x: string, rest: seq<string>, d: char)
    requires |rest| > 0
    ensures JoinWith([x] + rest, d) == x + [d] + JoinWith(rest, d)
  {
    assert ([x] + rest)[1..] == rest;
  }

  /** The delimiter once more when the input ends with one, else nothing. */
  function FinalDelim(s: string, d: char): string
  {
    if |s| > 0 && s[|s| - 1] == d then [d] else []
  }

  /** FieldsFromJoin when the field at `i` runs to the end of the input. */
  lemma FieldsFromJoinLast(s: string, d: char, i: nat)
    requires i < |s| && ScanToDelim(s, d, i) == |s|
    ensures JoinWith(FieldsFrom(s, d, i), d) + FinalDelim(s, d) == s[i..]
  {
    assert s[|s| - 1] == s[i..|s|][|s| - 1 - i];
    assert s[i..|s|] == s[i..];
    assert FieldsFrom(s, d, i) == [s[i..|s|]] + [];
  }

  /** FieldsFromJoin when the field at `i` ends on the input's last character. */
  lemma FieldsFromJoinBeforeFinalDelim(s: string, d: char, i: nat)
    requires i < |s| && ScanToDelim(s, d, i) == |s| - 1
    ensures JoinWith(FieldsFrom(s, d, i), d) + FinalDelim(s, d) == s[i..]
  {
    assert FieldsFrom(s, d, i) == [s[i..|s| - 1]];
    assert s[i..] == s[i..|s| - 1] + [d];
  }

  /** The fields from `i` onwards when another field follows the one at `i`. */
  lemma FieldsFromBeforeMore(s: string, d: char, i: nat, k: nat)
    requires i < |s| && k == ScanToDelim(s, d, i) && k + 1 < |s|
    ensures JoinWith(FieldsFrom(s, d, i), d) == s[i..k] + [d] + JoinWith(FieldsFrom(s, d, k + 1), d)
  {
    var rest := FieldsFrom(s, d, k + 1);
    assert FieldsFrom(s, d, i) == [s[i..k]] + rest;
    JoinWithCons(s[i..k], rest, d);
  }

  /** A slice split around one of its characters. */
  lemma SliceAround(s: string, i: nat, k: nat)
    requires i <= k < |s|
    ensures s[i..] == s[i..k] + [s[k]] + s[k + 1..]
  {
  }

  /** Sequence bookkeeping for the step of FieldsFromJoin. */
  lemma GlueAfterDelim(field: string, d: char, joined: string, joinedAll: string, tail: string,
                       rest: string, whole: string)
    requires joinedAll == field + [d] + joined && whole == field + [d] + rest
    requires joined + tail == rest
    ensures joinedAll + tail == whole
  {
    assert field + [d] + joined + tail == field + [d] + (joined + tail);
  }

  /** The step of FieldsFromJoin: from the fields after the first delimiter to the
      fields from `i`. */
  lemma FieldsFromJoinStep(s: string, d: char, i: nat, k: nat)
    requires i < |s| && k == ScanToDelim(s, d, i) && k + 1 < |s|
    requires JoinWith(FieldsFrom(s, d, k + 1), d) + FinalDelim(s, d) == s[k + 1..]
    ensures JoinWith(FieldsFrom(s, d, i), d) + FinalDelim(s, d) == s[i..]
  {
    FieldsFromBeforeMore(s, d, i, k);
    SliceAround(s, i, k);
    GlueAfterDelim(s[i..k], d, JoinWith(FieldsFrom(s, d, k + 1), d), JoinWith(FieldsFrom(s, d, i), d),
      FinalDelim(s, d), s[k + 1..], s[i..]);
  }

  /** Joining the fields from `i` onwards with the delimiter, plus one more
      delimiter when the input ends with one, gives the rest of the input back. */
  lemma {:induction false} FieldsFromJoin(s: string, d: char, i: nat)
    requires i < |s|
    ensures JoinWith(FieldsFrom(s, d, i), d) + FinalDelim(s, d) == s[i..]
    decreases |s| - i
  {
    var k := ScanToDelim(s, d, i);
    if k == |s| {
      FieldsFromJoinLast(s, d, i);
    } else if k + 1 == |s| {
      FieldsFromJoinBeforeFinalDelim(s, d, i);
    } else {
      FieldsFromJoin(s, d, k + 1);
      FieldsFromJoinStep(s, d, i, k);
    }
  }

  /** SplitNoStrip as the code evidently intends it: the pieces hold no delimiter,
      and joining them with the delimiter, plus the delimiter once more when the
      input ends with one, gives the input back. */
  function SplitNoStrip(s: string, d: char): (r: seq<string>)
    ensures forall k :: 0 <= k < |r| ==> d !in r[k]
    ensures |s| == 0 ==> r == []
    ensures JoinWith(r, d) + FinalDelim(s, d) == s
  {
    assert s[0..] == s;
    if |s| > 0 then
      FieldsFromJoin(s, d, 0);
      FieldsFrom(s, d, 0)
    else
      []
  }

  /** The outer loop of SplitNoStrip exactly as written (guard `i != strLen`, then
      `++i` after every piece). `None` marks the run in which `++i` steps to
      `strLen + 1`: the guard then never stops the loop and the next `str[i]` is
      read past the end of the string. */
  function NoStripLoopAsWritten(s: string, d: char, i: nat): (r: Option<seq<string>>)
    requires i <= |s|
    ensures r.None? <==> (i < |s| && s[|s| - 1] != d)
    ensures r.Some? ==> r.value == FieldsFrom(s, d, i)
    decreases |s| - i
  {
    if i == |s| then
      Some([])
    else
      var k := ScanToDelim(s, d, i);
      if k + 1 > |s| then
        assert s[|s| - 1] == s[i..k][|s| - 1 - i];
        None
      else
        match NoStripLoopAsWritten(s, d, k + 1)
        case None => None
        case Some(rest) => Some([s[i..k]] + rest)
  }

  /** SplitNoStrip as written stays within the string only when the input is empty
      or ends with the delimiter; there it agrees with the intended SplitNoStrip. */
  function SplitNoStripAsWritten(s: string, d: char): (r: Option<seq<string>>)
    ensures r.None? <==> (|s| > 0 && s[|s| - 1] != d)
    ensures r.Some? ==> r.value == SplitNoStrip(s, d)
  {
    NoStripLoopAsWritten(s, d, 0)
  }

  /** A one-line input without a trailing newline already overruns. */
  lemma SplitNoStripOverrunsOnLastLine()
    ensures SplitNoStripAsWritten("a", '\n') == None
    ensures SplitNoStrip("a", '\n') == ["a"]
  {
    assert ScanToDelim("a", '\n', 0) == 1;
    assert "a"[0..1] == "a";
  }

  /** A field list that starts with an empty field (the input starts with a
      delimiter) has the same non-empty fields as the rest of the list. */
  lemma FieldsFromAtDelim(s: string, d: char, i: nat)
    requires i < |s| && s[i] == d
    ensures NonEmpty(FieldsFrom(s, d, i)) == NonEmpty(FieldsFrom(s, d, i + 1))
  {
    assert ScanToDelim(s, d, i) == i;
    var f := FieldsFrom(s, d, i);
    assert f[1..] == FieldsFrom(s, d, i + 1);
  }

  /** A field list that starts with a non-empty field. */
  lemma FieldsFromAtField(s: string, d: char, i: nat, k: nat)
    requires i < |s| && s[i] != d && k == ScanToDelim(s, d, i)
    ensures i < k
    ensures NonEmpty(FieldsFrom(s, d, i))
      == [s[i..k]] + (if k < |s| then NonEmpty(FieldsFrom(s, d, k + 1)) else [])
  {
    var f := FieldsFrom(s, d, i);
    var rest := if k < |s| then FieldsFrom(s, d, k + 1) else [];
    assert f == [s[i..k]] + rest;
    assert f[0] == s[i..k] && |f[0]| > 0;
    assert f[1..] == rest;
    assert NonEmpty(f) == [s[i..k]] + NonEmpty(rest);
    if k < |s| {
      assert NonEmpty(rest) == NonEmpty(FieldsFrom(s, d, k + 1));
    } else {
      assert NonEmpty(rest) == [];
    }
  }

  /** Starting Split on a delimiter is the same as starting it one place later. */
  lemma SplitFromAtDelim(s: string, d: char, i: nat)
    requires i < |s| && s[i] == d
    ensures SplitFrom(s, d, i) == SplitFrom(s, d, i + 1)
  {
    assert SkipDelims(s, d, i) == SkipDelims(s, d, i + 1);
    if i + 1 == |s| {
      assert SkipDelims(s, d, i) == |s|;
    }
  }

  /** Starting Split on a non-delimiter takes the field that starts there. */
  lemma SplitFromAtField(s: string, d: char, i: nat, k: nat)
    requires i < |s| && s[i] != d && k == ScanToDelim(s, d, i)
    ensures SplitFrom(s, d, i) == [s[i..k]] + SplitFrom(s, d, k)
  {
    assert SkipDelims(s, d, i) == i;
  }

  /** The step of SplitFromIsNonEmptyFields at a delimiter. */
  lemma SplitFromDelim(s: string, d: char, i: nat)
    requires i < |s| && s[i] == d
    requires SplitFrom(s, d, i + 1) == NonEmpty(FieldsFrom(s, d, i + 1))
    ensures SplitFrom(s, d, i) == NonEmpty(FieldsFrom(s, d, i))
  {
    FieldsFromAtDelim(s, d, i);
    SplitFromAtDelim(s, d, i);
  }

  /** The step of SplitFromIsNonEmptyFields at a field that a delimiter ends. */
  lemma SplitFromFieldThenDelim(s: string, d: char, i: nat, k: nat)
    requires i < |s| && s[i] != d && k == ScanToDelim(s, d, i) && k < |s|
    requires SplitFrom(s, d, k + 1) == NonEmpty(FieldsFrom(s, d, k + 1))
    ensures SplitFrom(s, d, i) == NonEmpty(FieldsFrom(s, d, i))
  {
    FieldsFromAtField(s, d, i, k);
    SplitFromAtField(s, d, i, k);
    SplitFromAtDelim(s, d, k);
  }

  /** The step of SplitFromIsNonEmptyFields at a field that runs to the end. */
  lemma SplitFromFieldAtEnd(s: string, d: char, i: nat, k: nat)
    requires i < |s| && s[i] != d && k == ScanToDelim(s, d, i) && k == |s|
    ensures SplitFrom(s, d, i) == NonEmpty(FieldsFrom(s, d, i))
  {
    FieldsFromAtField(s, d, i, |s|);
    SplitFromAtField(s, d, i, |s|);
    assert SplitFrom(s, d, |s|) == [];
  }

  /** Split keeps exactly the non-empty fields that SplitNoStrip (as intended) finds. */
  lemma {:induction false} SplitFromIsNonEmptyFields(s: string, d: char, i: nat)
    requires i <= |s|
    ensures SplitFrom(s, d, i) == NonEmpty(FieldsFrom(s, d, i))
    decreases |s| - i
  {
    if i == |s| {
    } else if s[i] == d {
      SplitFromIsNonEmptyFields(s, d, i + 1);
      SplitFromDelim(s, d, i);
    } else {
      var k := ScanToDelim(s, d, i);
      if k < |s| {
        SplitFromIsNonEmptyFields(s, d, k + 1);
        SplitFromFieldThenDelim(s, d, i, k);
      } else {
        SplitFromFieldAtEnd(s, d, i, k);
      }
    }
  }

  lemma SplitIsNonEmptyFields(s: string, d: char)
    ensures Split(s, d) == NonEmpty(SplitNoStrip(s, d))
  {
    SplitFromIsNonEmptyFields(s, d, 0);
  }

  // ---------------------------------------------------------------------------
  // StartsWith, EndsWith
  // ---------------------------------------------------------------------------

  function StartsWith(str: string, start: string): (r: bool)
    ensures r <==> |start| <= |str| && forall k :: 0 <= k < |start| ==> str[k] == start[k]
  {
    if |str| < |start| then false else str[..|start|] == start
  }

  function EndsWith(str: string, end: string): (r: bool)
    ensures r <==> |end| <= |str| && forall k :: 0 <= k < |end| ==> str[|str| - |end| + k] == end[k]
  {
    if |str| < |end| then false else str[|str| - |end|..] == end
  }

  lemma StartsWithConcat(start: string, rest: string)
    ensures StartsWith(start + rest, start)
    ensures EndsWith(rest + start, start)
  {
    assert (start + rest)[..|start|] == start;
    assert (rest + start)[|rest + start| - |start|..] == start;
  }

  // ---------------------------------------------------------------------------
  // PadStart, PadEnd
  // ---------------------------------------------------------------------------

  /** Left-pads `str` with `pad` up to `minLen` characters (the source modifies its
      argument in place; here the padded string is returned). */
  function PadStart(str: string, minLen: int, pad: char): (r: string)
    ensures |r| == Max(|str|, minLen)
    ensures r[|r| - |str|..] == str
    ensures forall k :: 0 <= k < |r| - |str| ==> r[k] == pad
  {
    if |str| >= minLen then str else Repeat(pad, minLen - |str|) + str
  }

  /** Right-pads `str` with `pad` up to `minLen` characters. */
  function PadEnd(str: string, minLen: int, pad: char): (r: string)
    ensures |r| == Max(|str|, minLen)
    ensures r[..|str|] == str
    ensures forall k :: |str| <= k < |r| ==> r[k] == pad
  {
    if |str| >= minLen then str else str + Repeat(pad, minLen - |str|)
  }

  lemma PadIdempotent(str: string, minLen: int, pad: char)
    ensures PadStart(PadStart(str, minLen, pad), minLen, pad) == PadStart(str, minLen, pad)
    ensures PadEnd(PadEnd(str, minLen, pad), minLen, pad) == PadEnd(str, minLen, pad)
  {
  }

  // ---------------------------------------------------------------------------
  // Replace(str, char, char), NextNonAlphaNumeric
  // ---------------------------------------------------------------------------

  /** `str.find(c, from)`: the first index at or after `from` holding `c`. */
  function FindChar(s: string, c: char, from: nat): (r: Option<nat>)
    ensures r.Some? ==> from <= r.value < |s| && s[r.value] == c
    ensures forall k :: from <= k < |s| && (r.None? || k < r.value) ==> s[k] != c
    decreases |s| - from
  {
    if from >= |s| then None else if s[from] == c then Some(from) else FindChar(s, c, from + 1)
  }

  /** Replaces every occurrence of `pattern` by `replacement`. The loop mirrors the
      source: the cursor advances by one per replacement, not to the replaced index,
      and the search always restarts at the cursor. */
  method Replace(str: string, pattern: char, replacement: char) returns (result: string)
    ensures |result| == |str|
    ensures forall k :: 0 <= k < |str| ==>
      result[k] == (if str[k] == pattern then replacement else str[k])
  {
    result := str;
    var iter := 0;
    while iter != |result|
      invariant 0 <= iter <= |result| == |str|
      invariant forall k :: 0 <= k < |str| ==>
        result[k] == str[k] || (str[k] == pattern && result[k] == replacement)
      invariant pattern != replacement ==> forall k :: 0 <= k < iter ==> result[k] != pattern
      decreases |result| - iter
    {
      var found := FindChar(result, pattern, iter);
      if found.Some? {
        result := result[found.value := replacement];
        iter := iter + 1;
      } else {
        break;
      }
    }
  }

  predicate IsAlphaNumeric(c: char)
  {
    IsDigit(c) || IsAlpha(c)
  }

  /** The first index at or after `offset` whose character is neither a letter nor a
      digit, or -1 when there is none. */
  function NextNonAlphaNumeric(str: string, offset: int): (r: int)
    requires 0 <= offset
    ensures r == -1 || (offset <= r < |str| && !IsAlphaNumeric(str[r]))
    ensures forall k :: offset <= k < |str| && (r == -1 || k < r) ==> IsAlphaNumeric(str[k])
    decreases |str| - offset
  {
    if offset < |str| then
      if !IsDigit(str[offset]) && !IsAlpha(str[offset]) then offset
      else NextNonAlphaNumeric(str, offset + 1)
    else
      -1
  }
}
