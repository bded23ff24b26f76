/**
 * Python string behaviour the parsers, the chat front-end and the message
 * formatting rely on: str.strip(), str.split(sep), str.join, str.lower() on
 * the letters that matter, int() of a stripped decimal literal and str() of
 * an int.
 */
module Common {

  datatype Option<+T> = None | Some(value: T)

  // ---------------------------------------------------------------------------
  // Whitespace and strip()

  /** The characters Python's str.isspace() accepts, which str.strip() removes. */
  predicate IsSpace(c: char) {
    || c == ' '
    || ('\t' <= c <= '\r')
    || ('\U{1c}' <= c <= '\U{1f}')
    || c == '\U{85}' || c == '\U{a0}' || c == '\U{1680}'
    || ('\U{2000}' <= c <= '\U{200a}')
    || c == '\U{2028}' || c == '\U{2029}' || c == '\U{202f}' || c == '\U{205f}' || c == '\U{3000}'
  }

  predicate AllSpace(s: string) {
    forall i :: 0 <= i < |s| ==> IsSpace(s[i])
  }

  /** Neither end of `s` is whitespace: strip() leaves it as it is. */
  predicate IsStripped(s: string) {
    s == [] || (!IsSpace(s[0]) && !IsSpace(s[|s| - 1]))
  }

  /** str.lstrip(): the longest suffix not starting with whitespace. */
  function StripLeft(s: string): (r: string)
    ensures |r| <= |s| && r == s[|s| - |r|..]
    ensures AllSpace(s[..|s| - |r|])
    ensures r == [] || !IsSpace(r[0])
  {
    if s != [] && IsSpace(s[0]) then
      var t := s[1..];
      var r := StripLeft(t);
      assert s[..|s| - |r|] == [s[0]] + t[..|t| - |r|];
      r
    else s
  }

  /** str.rstrip(): the longest prefix not ending with whitespace. */
  function StripRight(s: string): (r: string)
    ensures |r| <= |s| && r == s[..|r|]
    ensures AllSpace(s[|r|..])
    ensures r == [] || !IsSpace(r[|r| - 1])
  {
    if s != [] && IsSpace(s[|s| - 1]) then
      var t := s[..|s| - 1];
      var r := StripRight(t);
      assert s[|r|..] == t[|r|..] + [s[|s| - 1]];
      r
    else s
  }

  /** str.strip(): `s` without its leading and trailing whitespace. */
  function Strip(s: string): (r: string)
    ensures IsStripped(r)
    ensures |r| <= |s|
  {
    var l := StripLeft(s);
    var r := StripRight(l);
    assert IsStripped(r) by {
      if r != [] { assert r[0] == l[0]; }
    }
    r
  }

  /** strip() only removes characters: one the text lacks is missing from the result too. */
  lemma {:induction false} StripHasNo(s: string, c: char)
    requires c !in s
    ensures c !in Strip(s)
  {
    var l := StripLeft(s);
    assert Strip(s) == StripRight(l);
  }

  lemma {:induction false} StripOfStripped(s: string)
    requires IsStripped(s)
    ensures Strip(s) == s
  {
    if s != [] {
      assert StripLeft(s) == s;
    }
  }

  lemma {:induction false} StripLeftOfSpacePrefix(w: string, s: string)
    requires AllSpace(w)
    ensures StripLeft(w + s) == StripLeft(s)
  {
    if w != [] {
      assert (w + s)[0] == w[0];
      assert (w + s)[1..] == w[1..] + s;
      StripLeftOfSpacePrefix(w[1..], s);
    } else {
      assert w + s == s;
    }
  }

  /** Leading whitespace makes no difference to strip(). */
  lemma {:induction false} StripOfSpacePrefix(w: string, s: string)
    requires AllSpace(w)
    ensures Strip(w + s) == Strip(s)
  {
    StripLeftOfSpacePrefix(w, s);
  }

  lemma {:induction false} StripOfAllSpace(w: string)
    requires AllSpace(w)
    ensures Strip(w) == []
  {
  }

  lemma {:induction false} StripRightOfSpaceSuffix(s: string, w: string)
    requires AllSpace(w)
    ensures StripRight(s + w) == StripRight(s)
    decreases |w|
  {
    if w != [] {
      var n := |w| - 1;
      assert (s + w)[|s + w| - 1] == w[n];
      assert (s + w)[..|s + w| - 1] == s + w[..n];
      StripRightOfSpaceSuffix(s, w[..n]);
    } else {
      assert s + w == s;
    }
  }

  /** Whitespace on either side of a stripped string makes no difference to strip(). */
  lemma {:induction false} StripOfPadded(w1: string, x: string, w2: string)
    requires AllSpace(w1) && AllSpace(w2) && IsStripped(x)
    ensures Strip(w1 + x + w2) == x
  {
    assert w1 + x + w2 == w1 + (x + w2);
    StripOfSpacePrefix(w1, x + w2);
    if x == [] {
      assert x + w2 == w2;
      StripOfAllSpace(w2);
    } else {
      assert (x + w2)[0] == x[0];
      assert StripLeft(x + w2) == x + w2;
      StripRightOfSpaceSuffix(x, w2);
      StripOfStripped(x);
    }
  }

  // ---------------------------------------------------------------------------
  // split(sep) and join

  /** str.split(c) with an explicit one-character separator: the pieces between separators. */
  function Split(s: string, c: char): (r: seq<string>)
    ensures |r| >= 1
    ensures forall k :: 0 <= k < |r| ==> c !in r[k]
  {
    if s == [] then [[]]
    else
      var rest := Split(s[1..], c);
      if s[0] == c then [[]] + rest else [[s[0]] + rest[0]] + rest[1..]
  }

  /** sep.join(xs). */
  function Join(xs: seq<string>, sep: string): string {
    if |xs| == 0 then []
    else if |xs| == 1 then xs[0]
    else xs[0] + sep + Join(xs[1..], sep)
  }

  /** s.split(c)[-1]: what follows the last occurrence of `c`, or all of `s`. */
  function AfterLast(s: string, c: char): (r: string)
    ensures c !in r
  {
    var parts := Split(s, c);
    parts[|parts| - 1]
  }

  /** [x.strip() for x in xs] */
  function StripAll(xs: seq<string>): (r: seq<string>)
    ensures |r| == |xs| && forall k :: 0 <= k < |xs| ==> r[k] == Strip(xs[k])
    ensures forall k :: 0 <= k < |r| ==> IsStripped(r[k])
  {
    if xs == [] then [] else [Strip(xs[0])] + StripAll(xs[1..])
  }

  /** Joining the pieces with the separator gives back the original string. */
  lemma {:induction false} JoinOfSplit(s: string, c: char)
    ensures Join(Split(s, c), [c]) == s
  {
    if s != [] {
      var rest := Split(s[1..], c);
      JoinOfSplit(s[1..], c);
      if s[0] == c {
        assert Split(s, c) == [[]] + rest;
        assert ([[]] + rest)[1..] == rest;
      } else if |rest| == 1 {
        assert Split(s, c) == [[s[0]] + rest[0]];
      } else {
        var r := Split(s, c);
        assert r == [[s[0]] + rest[0]] + rest[1..];
        assert r[1..] == rest[1..];
        assert Join(rest, [c]) == rest[0] + [c] + Join(rest[1..], [c]);
      }
    }
  }

  lemma {:induction false} SplitWithoutSeparator(a: string, c: char)
    requires c !in a
    ensures Split(a, c) == [a]
  {
    if a != [] {
      SplitWithoutSeparator(a[1..], c);
      assert [a[0]] + a[1..] == a;
    }
  }

  /** A first separator cuts off the first piece. */
  lemma {:induction false} SplitAtFirst(a: string, c: char, b: string)
    requires c !in a
    ensures Split(a + [c] + b, c) == [a] + Split(b, c)
  {
    if a == [] {
      assert a + [c] + b == [c] + b;
      assert ([c] + b)[1..] == b;
    } else {
      assert (a + [c] + b)[1..] == a[1..] + [c] + b;
      SplitAtFirst(a[1..], c, b);
      assert [a[0]] + a[1..] == a;
    }
  }

  /**
   * Splitting `pre + sep.join(xs)` on the separator's first character, when
   * the separator is that character followed by `pad`, gives `pre + xs[0]`
   * and then `pad + xs[k]` for every later element.
   */
  lemma {:induction false} SplitOfPaddedJoin(pre: string, xs: seq<string>, c: char, pad: string)
    requires |xs| >= 1
    requires c !in pre && c !in pad
    requires forall k :: 0 <= k < |xs| ==> c !in xs[k]
    ensures var r := Split(pre + Join(xs, [c] + pad), c);
      |r| == |xs| && r[0] == pre + xs[0] && forall k :: 1 <= k < |xs| ==> r[k] == pad + xs[k]
    decreases |xs|
  {
    if |xs| == 1 {
      assert Join(xs, [c] + pad) == xs[0];
      assert c !in pre + xs[0] by {
        assert forall i :: 0 <= i < |pre| ==> pre[i] != c;
      }
      SplitWithoutSeparator(pre + xs[0], c);
    } else {
      var tail := Join(xs[1..], [c] + pad);
      var rest := Split(pad + tail, c);
      assert Split(pre + Join(xs, [c] + pad), c) == [pre + xs[0]] + rest by {
        assert c !in pre + xs[0] by {
          assert forall i :: 0 <= i < |pre| ==> pre[i] != c;
        }
        assert pre + Join(xs, [c] + pad) == (pre + xs[0]) + [c] + (pad + tail);
        SplitAtFirst(pre + xs[0], c, pad + tail);
      }
      SplitOfPaddedJoin(pad, xs[1..], c, pad);
      assert |rest| == |xs| - 1 && forall k :: 0 <= k < |rest| ==> rest[k] == pad + xs[k + 1];
    }
  }

  /** Splitting a join whose elements do not contain the separator gives the elements back. */
  lemma {:induction false} SplitOfJoin(xs: seq<string>, c: char)
    requires |xs| >= 1
    requires forall k :: 0 <= k < |xs| ==> c !in xs[k]
    ensures Split(Join(xs, [c]), c) == xs
  {
    var sep: string := [c];
    var empty: string := [];
    assert sep + empty == sep;
    assert empty + Join(xs, sep) == Join(xs, sep);
    SplitOfPaddedJoin(empty, xs, c, empty);
    var r := Split(Join(xs, sep), c);
    assert |r| == |xs|;
    forall k | 0 <= k < |xs| ensures r[k] == xs[k] {
      assert empty + xs[k] == xs[k];
    }
  }

  /**
   * [p.strip() for p in ", ".join(xs).split(",")] == xs when every element is
   * stripped and contains no comma: how a comma-separated list is read back.
   */
  lemma {:induction false} StripAllOfCommaList(xs: seq<string>)
    requires |xs| >= 1
    requires forall k :: 0 <= k < |xs| ==> ',' !in xs[k] && IsStripped(xs[k])
    ensures StripAll(Split(Join(xs, ", "), ',')) == xs
  {
    CommaListPieces(xs);
    StripAllOfPieces(Split(Join(xs, ", "), ','), xs);
  }

  /** Stripping the pieces of a comma-separated list, the first unpadded and the others with one leading space. */
  lemma {:induction false} StripAllOfPieces(parts: seq<string>, xs: seq<string>)
    requires |parts| == |xs| >= 1
    requires forall k :: 0 <= k < |xs| ==> IsStripped(xs[k])
    requires parts[0] == xs[0] && forall k :: 1 <= k < |xs| ==> parts[k] == " " + xs[k]
    ensures StripAll(parts) == xs
  {
    var r := StripAll(parts);
    forall k | 0 <= k < |xs|
      ensures r[k] == xs[k]
    {
      StripPiece(parts[k], xs[k], k > 0);
    }
  }

  lemma {:induction false} StripPiece(p: string, x: string, padded: bool)
    requires IsStripped(x)
    requires p == if padded then " " + x else x
    ensures Strip(p) == x
  {
    if padded {
      var sp: string := [' '];
      assert AllSpace(sp);
      StripOfSpacePrefix(sp, x);
      assert Strip(sp + x) == Strip(x);
    }
    StripOfStripped(x);
  }

  lemma {:induction false} CommaListPieces(xs: seq<string>)
    requires |xs| >= 1
    requires forall k :: 0 <= k < |xs| ==> ',' !in xs[k]
    ensures var parts := Split(Join(xs, ", "), ',');
      |parts| == |xs| && parts[0] == xs[0] && forall k :: 1 <= k < |xs| ==> parts[k] == " " + xs[k]
  {
    var empty: string := [];
    assert [','] + " " == ", ";
    assert empty + Join(xs, ", ") == Join(xs, ", ");
    assert empty + xs[0] == xs[0];
    SplitOfPaddedJoin(empty, xs, ',', " ");
  }

  /**
   * [p.strip() for p in " | ".join(xs).split("|")] == xs, here with any
   * separator character c, when every element is stripped and free of c;
   * leading whitespace `pre` before the first element does not matter.
   */
  lemma {:induction false} FieldsOfSpacedJoin(pre: string, xs: seq<string>, c: char)
    requires |xs| >= 1 && AllSpace(pre) && !IsSpace(c)
    requires forall k :: 0 <= k < |xs| ==> c !in xs[k] && IsStripped(xs[k])
    ensures StripAll(Split(pre + Join(xs, " " + [c] + " "), c)) == xs
    decreases |xs|
  {
    var sp: string := " ";
    if |xs| == 1 {
      assert Join(xs, " " + [c] + " ") == xs[0] && xs == [xs[0]];
      FieldsOfSingle(pre, xs[0], c);
    } else {
      var first := pre + xs[0] + sp;
      var rest := Split(sp + Join(xs[1..], " " + [c] + " "), c);
      SpacedJoinFirst(pre, xs, c);
      assert AllSpace(sp);
      StripOfPadded(pre, xs[0], sp);
      FieldsOfSpacedJoin(sp, xs[1..], c);
      StripAllCons(first, rest);
      HeadTail(xs);
    }
  }

  /** A single field, with whitespace before it. */
  lemma {:induction false} FieldsOfSingle(pre: string, x: string, c: char)
    requires AllSpace(pre) && !IsSpace(c) && c !in x && IsStripped(x)
    ensures StripAll(Split(pre + x, c)) == [x]
  {
    assert c !in pre + x by {
      assert forall i :: 0 <= i < |pre| ==> pre[i] != c;
    }
    SplitWithoutSeparator(pre + x, c);
    assert pre + x == pre + x + [];
    StripOfPadded(pre, x, []);
  }

  /** The first separator of a spaced join cuts off the first element with the whitespace around it. */
  lemma {:induction false} SpacedJoinFirst(pre: string, xs: seq<string>, c: char)
    requires |xs| >= 2 && AllSpace(pre) && !IsSpace(c) && c !in xs[0]
    ensures Split(pre + Join(xs, " " + [c] + " "), c) == [pre + xs[0] + " "] + Split(" " + Join(xs[1..], " " + [c] + " "), c)
  {
    var sep := " " + [c] + " ";
    var sp: string := " ";
    var first := pre + xs[0] + sp;
    assert c !in first by {
      assert forall i :: 0 <= i < |pre| ==> pre[i] != c;
    }
    assert pre + Join(xs, sep) == first + [c] + (sp + Join(xs[1..], sep));
    SplitAtFirst(first, c, sp + Join(xs[1..], sep));
  }

  lemma {:induction false} StripAllCons(x: string, xs: seq<string>)
    ensures StripAll([x] + xs) == [Strip(x)] + StripAll(xs)
  {
    assert ([x] + xs)[1..] == xs;
  }

  lemma {:induction false} HeadTail<T>(xs: seq<T>)
    requires |xs| >= 1
    ensures [xs[0]] + xs[1..] == xs
  {
  }

  lemma {:induction false} AppendAssoc<T>(a: seq<T>, b: seq<T>, c: seq<T>)
    ensures a + (b + c) == (a + b) + c
  {
  }

  /** A character in neither the elements nor the separator is not in the join. */
  lemma {:induction false} NotInJoin(xs: seq<string>, sep: string, c: char)
    requires c !in sep && forall k :: 0 <= k < |xs| ==> c !in xs[k]
    ensures c !in Join(xs, sep)
    decreases |xs|
  {
    if |xs| > 1 {
      NotInJoin(xs[1..], sep, c);
    }
  }

  /** The join of non-empty stripped strings is stripped: it starts with the first and ends with the last. */
  lemma {:induction false} JoinStripped(xs: seq<string>, sep: string)
    requires |xs| >= 1 && forall k :: 0 <= k < |xs| ==> xs[k] != [] && IsStripped(xs[k])
    ensures Join(xs, sep) != [] && IsStripped(Join(xs, sep))
    decreases |xs|
  {
    if |xs| > 1 {
      JoinStripped(xs[1..], sep);
      var tail := Join(xs[1..], sep);
      assert Join(xs, sep) == xs[0] + (sep + tail);
    }
  }

  /**
   * A tag, ": " and a stripped value without colons: the value is what
   * follows the last colon, once stripped.
   */
  lemma {:induction false} LabelledValue(tag: string, v: string)
    requires ':' !in tag && ':' !in v && IsStripped(v)
    ensures Strip(AfterLast(tag + ": " + v, ':')) == v
  {
    var sp: string := " ";
    assert AfterLast(tag + ": " + v, ':') == sp + v by {
      assert ':' !in sp + v;
      assert tag + ": " + v == tag + [':'] + (sp + v);
      SplitAtFirst(tag, ':', sp + v);
      SplitWithoutSeparator(sp + v, ':');
    }
    assert Strip(sp + v) == v by {
      assert AllSpace(sp);
      assert sp + v == sp + v + [];
      StripOfPadded(sp, v, []);
    }
  }

  // ---------------------------------------------------------------------------
  // lower()

  function LowerChar(c: char): (r: char)
    ensures 'A' <= c <= 'Z' ==> 'a' <= r <= 'z'
  {
    if 'A' <= c <= 'Z' then (c as int + 32) as char else c
  }

  /** str.lower() on ASCII letters; other characters are kept. */
  function Lower(s: string): (r: string)
    ensures |r| == |s| && forall i :: 0 <= i < |s| ==> r[i] == LowerChar(s[i])
  {
    if s == [] then [] else [LowerChar(s[0])] + Lower(s[1..])
  }

  // ---------------------------------------------------------------------------
  // int() and str() of integers

  predicate IsDigit(c: char) {
    '0' <= c <= '9'
  }

  function DigitValue(c: char): (d: nat)
    requires IsDigit(c)
    ensures d < 10
  {
    c as int - '0' as int
  }

  function DigitChar(d: nat): (c: char)
    requires d < 10
    ensures IsDigit(c) && DigitValue(c) == d
  {
    ('0' as int + d) as char
  }

  /** Decimal digits, with single underscores allowed between two digits, as int() accepts them. */
  predicate IsDigitGroup(s: string) {
    && |s| > 0
    && IsDigit(s[0]) && IsDigit(s[|s| - 1])
    && (forall i :: 0 <= i < |s| ==> IsDigit(s[i]) || s[i] == '_')
    && (forall i :: 0 <= i < |s| - 1 ==> s[i] == '_' ==> s[i + 1] != '_')
  }

  /** The value of a run of digits and underscores, underscores ignored. */
  function DigitsValue(s: string): nat
    requires forall i :: 0 <= i < |s| ==> IsDigit(s[i]) || s[i] == '_'
  {
    if s == [] then 0
    else if s[|s| - 1] == '_' then DigitsValue(s[..|s| - 1])
    else DigitsValue(s[..|s| - 1]) * 10 + DigitValue(s[|s| - 1])
  }

  /** int(s) for a string that has already been stripped; None where int() raises ValueError. */
  function ParseInt(s: string): (r: Option<int>)
    ensures r.Some? ==> |s| > 0 && (IsDigit(s[0]) || s[0] == '-' || s[0] == '+')
    ensures r.Some? && r.value < 0 ==> s[0] == '-'
  {
    if |s| > 0 && (s[0] == '-' || s[0] == '+') then
      if IsDigitGroup(s[1..]) then
        var v: int := DigitsValue(s[1..]);
        Some(if s[0] == '-' then -v else v)
      else None
    else if IsDigitGroup(s) then Some(DigitsValue(s))
    else None
  }

  /** str(n) for a non-negative n: its decimal digits without leading zeros. */
  function NatToString(n: nat): (r: string)
    ensures |r| >= 1 && forall i :: 0 <= i < |r| ==> IsDigit(r[i])
    ensures r[0] == '0' ==> n == 0
  {
    if n < 10 then [DigitChar(n)] else NatToString(n / 10) + [DigitChar(n % 10)]
  }

  /** str(n) for any int. */
  function IntToString(n: int): string {
    if n < 0 then "-" + NatToString(-n) else NatToString(n)
  }

  lemma {:induction false} DigitsValueOfNatToString(n: nat)
    ensures DigitsValue(NatToString(n)) == n
  {
    var s := NatToString(n);
    if n >= 10 {
      DigitsValueOfNatToString(n / 10);
      assert s[..|s| - 1] == NatToString(n / 10);
    }
  }

  /** int(str(n)) == n. */
  lemma {:induction false} ParseIntOfIntToString(n: int)
    ensures ParseInt(IntToString(n)) == Some(n)
  {
    var m: nat := if n < 0 then -n else n;
    var d := NatToString(m);
    assert IsDigitGroup(d) && DigitsValue(d) == m by {
      DigitsValueOfNatToString(m);
    }
    var s := IntToString(n);
    if n < 0 {
      assert s[0] == '-' && s[1..] == d by {
        assert s == "-" + d;
      }
    } else {
      assert s == d && IsDigit(s[0]);
    }
  }

  /** str(n) contains none of the characters the record formats use as separators. */
  lemma {:induction false} IntToStringHasNoSeparators(n: int)
    ensures var s := IntToString(n); |s| >= 1 && IsStripped(s) && ':' !in s && '|' !in s && ',' !in s && '\n' !in s
  {
    var d := NatToString(if n < 0 then -n else n);
    var s := IntToString(n);
    assert s == (if n < 0 then "-" else "") + d;
    assert forall i :: 0 <= i < |s| ==> s[i] == '-' || IsDigit(s[i]);
  }
}
