/** String helpers behind the fixed-width table: Python's `'{:<w}'.format`,
    slicing `s[:n]`, `sep.join`, and the inverse operations used to state
    round trips (trailing-space trimming, splitting at `", "` and at `':'`). */
module Text {

  function Min(a: int, b: int): int { if a <= b then a else b }

  function Max(a: int, b: int): int { if a >= b then a else b }

  predicate AllSpaces(s: string) {
    forall i :: 0 <= i < |s| ==> s[i] == ' '
  }

  /** `n` space characters. */
  function Spaces(n: nat): (r: string)
    ensures |r| == n
    ensures AllSpaces(r)
  {
    if n == 0 then "" else Spaces(n - 1) + " "
  }

  /** `'{:<width}'.format(s)`: `s` left-aligned in a field of `width`
      characters, filled with spaces; a longer `s` is kept whole. */
  function LeftJustify(s: string, width: nat): (r: string)
    ensures |r| == Max(|s|, width)
    ensures r[..|s|] == s
    ensures AllSpaces(r[|s|..])
  {
    if |s| < width then s + Spaces(width - |s|) else s
  }

  /** Python's slice `s[:n]`. */
  function Truncate(s: string, n: nat): (r: string)
    ensures |r| == Min(|s|, n)
    ensures r == s[..|r|]
  {
    if |s| <= n then s else s[..n]
  }

  /** `s.rstrip(' ')`: the longest prefix of `s` that does not end in a space. */
  function RTrim(s: string): (r: string)
    ensures |r| <= |s| && r == s[..|r|]
    ensures AllSpaces(s[|r|..])
    ensures |r| == 0 || r[|r| - 1] != ' '
  {
    if |s| > 0 && s[|s| - 1] == ' ' then
      var r := RTrim(s[..|s| - 1]);
      assert s[|r|..] == s[..|s| - 1][|r|..] + [' '];
      r
    else s
  }

  lemma {:induction false} RTrimIgnoresPadding(s: string, n: nat)
    ensures RTrim(s + Spaces(n)) == RTrim(s)
  {
    if n == 0 {
      assert s + Spaces(0) == s;
    } else {
      var t := s + Spaces(n);
      assert t[|t| - 1] == ' ';
      assert t[..|t| - 1] == s + Spaces(n - 1);
      RTrimIgnoresPadding(s, n - 1);
    }
  }

  /** Padding is undone by trimming, as long as the text itself does not end
      in a space. */
  lemma PadTrimRoundTrip(s: string, width: nat)
    requires |s| == 0 || s[|s| - 1] != ' '
    ensures RTrim(LeftJustify(s, width)) == s
  {
    if |s| < width {
      RTrimIgnoresPadding(s, width - |s|);
    }
  }

  /** `s` holds no line break, so printing it stays on one physical line. */
  predicate SingleLine(s: string) {
    '\n' !in s
  }

  lemma LeftJustifySingleLine(s: string, width: nat)
    requires SingleLine(s)
    ensures SingleLine(LeftJustify(s, width))
  {
    var r := LeftJustify(s, width);
    forall i | 0 <= i < |r| ensures r[i] != '\n' {
      if i < |s| {
        assert r[i] == r[..|s|][i];
      } else {
        assert r[i] == r[|s|..][i - |s|];
      }
    }
  }

  lemma TruncateSingleLine(s: string, n: nat)
    requires SingleLine(s)
    ensures SingleLine(Truncate(s, n))
  {
    var r := Truncate(s, n);
    forall i | 0 <= i < |r| ensures r[i] != '\n' {
      assert r[i] == s[i];
    }
  }

  /** The parts written one after another: consecutive `print(..., end='')`. */
  function Concat(parts: seq<string>): (r: string)
    ensures |r| == TotalLength(parts)
  {
    if |parts| == 0 then "" else parts[0] + Concat(parts[1..])
  }

  /** The sum of the lengths of the parts. */
  function TotalLength(parts: seq<string>): nat
  {
    if |parts| == 0 then 0 else |parts[0]| + TotalLength(parts[1..])
  }

  /** Parts of width at least `w` take at least `w` characters each. */
  lemma {:induction false} ConcatAtLeast(parts: seq<string>, w: nat)
    requires forall i :: 0 <= i < |parts| ==> |parts[i]| >= w
    ensures |Concat(parts)| >= w * |parts|
  {
    if |parts| > 0 {
      ConcatAtLeast(parts[1..], w);
      MulStep(w, |parts| - 1);
    }
  }

  lemma {:induction false} ConcatAppend(a: seq<string>, b: seq<string>)
    ensures Concat(a + b) == Concat(a) + Concat(b)
  {
    if |a| == 0 {
      assert a + b == b;
    } else {
      assert (a + b)[1..] == a[1..] + b;
      ConcatAppend(a[1..], b);
    }
  }

  lemma {:induction false} ConcatSingleLine(parts: seq<string>)
    requires forall i :: 0 <= i < |parts| ==> SingleLine(parts[i])
    ensures SingleLine(Concat(parts))
  {
    if |parts| > 0 {
      ConcatSingleLine(parts[1..]);
      assert SingleLine(parts[0]);
    }
  }

  /** Every part appears whole in the concatenation, starting right after the
      parts before it. */
  lemma ConcatContains(parts: seq<string>, j: nat)
    requires j < |parts|
    ensures |Concat(parts[..j])| + |parts[j]| <= |Concat(parts)|
    ensures Concat(parts)[|Concat(parts[..j])|..|Concat(parts[..j])| + |parts[j]|] == parts[j]
  {
    var tail := [parts[j]] + parts[j + 1..];
    assert parts == parts[..j] + tail;
    ConcatAppend(parts[..j], tail);
    assert tail[1..] == parts[j + 1..];
  }

  lemma SliceAfterPrefix(a: string, b: string, lo: nat, hi: nat)
    requires |a| <= lo <= hi <= |a| + |b|
    ensures (a + b)[lo..hi] == b[lo - |a|..hi - |a|]
  {
  }

  /** Parts of one common width `w` sit at offsets `0, w, 2w, ...`. */
  lemma {:induction false} ConcatUniform(parts: seq<string>, w: nat)
    requires forall i :: 0 <= i < |parts| ==> |parts[i]| == w
    ensures |Concat(parts)| == w * |parts|
    ensures forall i :: 0 <= i < |parts| ==>
              w * i + w <= |Concat(parts)| && Concat(parts)[w * i..w * i + w] == parts[i]
  {
    if |parts| > 0 {
      var rest := parts[1..];
      var whole := Concat(parts);
      var tail := Concat(rest);
      ConcatUniform(rest, w);
      assert whole == parts[0] + tail;
      MulStep(w, |rest|);
      forall i | 0 <= i < |parts|
        ensures w * i + w <= |whole| && whole[w * i..w * i + w] == parts[i]
      {
        MulStep(w, i);
        MulMonotone(w, i + 1, |parts|);
        if i > 0 {
          var off := w * (i - 1);
          MulStep(w, i - 1);
          MulMonotone(w, i, |rest|);
          assert off + w <= |tail|;
          SliceAfterPrefix(parts[0], tail, w + off, w + off + w);
          assert rest[i - 1] == parts[i];
        }
      }
    }
  }

  lemma MulStep(w: nat, n: nat)
    ensures w * (n + 1) == w * n + w
  {
  }

  lemma MulMonotone(w: nat, a: nat, b: nat)
    requires a <= b
    ensures w * a <= w * b
  {
  }

  /** `sep.join(parts)`. */
  function Join(parts: seq<string>, sep: string): (r: string)
    ensures |parts| == 0 ==> r == ""
    ensures |parts| > 0 ==> |parts[0]| <= |r| && r[..|parts[0]|] == parts[0]
    ensures |parts| >= 2 ==>
              |parts[0]| + |sep| <= |r| && r[|parts[0]|..|parts[0]| + |sep|] == sep
  {
    if |parts| == 0 then ""
    else if |parts| == 1 then parts[0]
    else parts[0] + sep + Join(parts[1..], sep)
  }

  lemma {:induction false} JoinSingleLine(parts: seq<string>, sep: string)
    requires SingleLine(sep)
    requires forall i :: 0 <= i < |parts| ==> SingleLine(parts[i])
    ensures SingleLine(Join(parts, sep))
  {
    if |parts| >= 2 {
      JoinSingleLine(parts[1..], sep);
      assert SingleLine(parts[0]);
    }
  }

  /** The separator the flattened sub-record cell is joined with. */
  const ListSeparator: string := ", "

  /** `s` contains no `", "`. */
  predicate NoListSeparator(s: string) {
    forall i :: 0 <= i < |s| - 1 ==> !(s[i] == ',' && s[i + 1] == ' ')
  }

  /** `s.split(", ")`: the pieces between the occurrences of `", "`. */
  function Split(s: string): (r: seq<string>)
    ensures |r| >= 1
    decreases |s|
  {
    if |s| < 2 then [s]
    else if s[0] == ',' && s[1] == ' ' then [""] + Split(s[2..])
    else
      var rest := Split(s[1..]);
      [[s[0]] + rest[0]] + rest[1..]
  }

  lemma {:induction false} SplitWithoutSeparator(p: string)
    requires NoListSeparator(p)
    ensures Split(p) == [p]
    decreases |p|
  {
    if |p| >= 2 {
      assert !(p[0] == ',' && p[1] == ' ');
      SplitWithoutSeparator(p[1..]);
      assert [p[0]] + p[1..] == p;
    }
  }

  lemma {:induction false} SplitAtFirstSeparator(p: string, t: string)
    requires NoListSeparator(p)
    ensures Split(p + ListSeparator + t) == [p] + Split(t)
    decreases |p|
  {
    var s := p + ListSeparator + t;
    if |p| == 0 {
      assert s[2..] == t;
    } else {
      assert s[0] == p[0];
      if |p| >= 2 {
        assert s[1] == p[1];
        assert !(p[0] == ',' && p[1] == ' ');
      } else {
        assert s[1] == ',';
      }
      assert s[1..] == p[1..] + ListSeparator + t;
      SplitAtFirstSeparator(p[1..], t);
      assert [p[0]] + p[1..] == p;
    }
  }

  /** Splitting at `", "` undoes joining with `", "` when no part contains
      the separator. */
  lemma {:induction false} SplitJoinRoundTrip(parts: seq<string>)
    requires |parts| >= 1
    requires forall i :: 0 <= i < |parts| ==> NoListSeparator(parts[i])
    ensures Split(Join(parts, ListSeparator)) == parts
    decreases |parts|
  {
    if |parts| == 1 {
      SplitWithoutSeparator(parts[0]);
    } else {
      SplitJoinRoundTrip(parts[1..]);
      SplitAtFirstSeparator(parts[0], Join(parts[1..], ListSeparator));
      assert [parts[0]] + parts[1..] == parts;
    }
  }

  /** `s.partition(':')` without the colon: the text before the first `':'`
      and the text after it; `(s, "")` when there is no colon. */
  function SplitAtColon(s: string): (r: (string, string))
    ensures ':' !in r.0
  {
    if |s| == 0 then ("", "")
    else if s[0] == ':' then ("", s[1..])
    else
      var (k, v) := SplitAtColon(s[1..]);
      ([s[0]] + k, v)
  }

  lemma {:induction false} ColonRoundTrip(k: string, v: string)
    requires ':' !in k
    ensures SplitAtColon(k + ":" + v) == (k, v)
  {
    var s := k + ":" + v;
    if |k| == 0 {
      assert s[1..] == v;
    } else {
      assert s[0] == k[0];
      assert s[1..] == k[1..] + ":" + v;
      ColonRoundTrip(k[1..], v);
      assert [k[0]] + k[1..] == k;
    }
  }
}
