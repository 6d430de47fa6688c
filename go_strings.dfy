/**
 * The parts of Go's `strings` and `unicode` packages that the renderer relies
 * on: `unicode.IsSpace`, `strings.TrimSpace`, `strings.Split` (and its
 * inverse `strings.Join`), and `len` on a string, which counts UTF-8 bytes.
 *
 * A Go string is modelled as the sequence of Unicode scalar values that its
 * bytes encode in UTF-8.
 */
module GoStrings {

  /** `unicode.IsSpace`: the characters with the Unicode White_Space property. */
  predicate IsSpace(c: char) {
    || c == '\t' || c == '\n' || c == '\U{000B}' || c == '\U{000C}' || c == '\r' || c == ' '
    || c == '\U{0085}' || c == '\U{00A0}' || c == '\U{1680}'
    || ('\U{2000}' <= c <= '\U{200A}')
    || c == '\U{2028}' || c == '\U{2029}' || c == '\U{202F}' || c == '\U{205F}' || c == '\U{3000}'
  }

  predicate AllSpace(s: string) {
    forall i :: 0 <= i < |s| ==> IsSpace(s[i])
  }

  /** `s` neither starts nor ends with white space. */
  predicate IsTrimmed(s: string) {
    s == [] || (!IsSpace(s[0]) && !IsSpace(s[|s| - 1]))
  }

  /** Drops the leading white space of `s`. */
  function TrimLeft(s: string): (r: string)
    ensures |r| <= |s|
    decreases |s|
  {
    if s != [] && IsSpace(s[0]) then TrimLeft(s[1..]) else s
  }

  /**
   * `TrimLeft(s)` is a suffix of `s` that does not start with white space,
   * and what it drops is all white space.
   */
  lemma {:induction false} TrimLeftDropsLeadingSpace(s: string)
    ensures TrimLeft(s) == s[|s| - |TrimLeft(s)|..]
    ensures AllSpace(s[..|s| - |TrimLeft(s)|])
    ensures TrimLeft(s) == [] || !IsSpace(TrimLeft(s)[0])
    decreases |s|
  {
    if s != [] && IsSpace(s[0]) {
      TrimLeftDropsLeadingSpace(s[1..]);
      var k := |s| - |TrimLeft(s)|;
      assert s[..k] == [s[0]] + s[1..][..k - 1];
    }
  }

  /** Drops the trailing white space of `s`. */
  function TrimRight(s: string): (r: string)
    ensures |r| <= |s|
    decreases |s|
  {
    if s != [] && IsSpace(s[|s| - 1]) then TrimRight(s[..|s| - 1]) else s
  }

  /**
   * `TrimRight(s)` is a prefix of `s` that does not end with white space,
   * and what it drops is all white space.
   */
  lemma {:induction false} TrimRightDropsTrailingSpace(s: string)
    ensures TrimRight(s) == s[..|TrimRight(s)|]
    ensures AllSpace(s[|TrimRight(s)|..])
    ensures TrimRight(s) == [] || !IsSpace(TrimRight(s)[|TrimRight(s)| - 1])
    decreases |s|
  {
    if s != [] && IsSpace(s[|s| - 1]) {
      var init := s[..|s| - 1];
      TrimRightDropsTrailingSpace(init);
      var k := |TrimRight(s)|;
      assert s[k..] == init[k..] + [s[|s| - 1]];
      assert init[..k] == s[..k];
    }
  }

  /**
   * `strings.TrimSpace`: what is left of `s` once the white space at both
   * ends is removed.
   */
  function TrimSpace(s: string): (r: string)
    ensures |r| <= |s|
  {
    TrimRight(TrimLeft(s))
  }

  /** What trimming leaves neither starts nor ends with white space. */
  lemma TrimSpaceIsTrimmed(s: string)
    ensures IsTrimmed(TrimSpace(s))
  {
    TrimLeftDropsLeadingSpace(s);
    TrimRightDropsTrailingSpace(TrimLeft(s));
    assert TrimRight(TrimLeft(s)) != [] ==> TrimRight(TrimLeft(s))[0] == TrimLeft(s)[0];
  }

  /**
   * `TrimSpace(s)` is a slice of `s`, and everything of `s` outside that
   * slice is white space.
   */
  lemma TrimSpaceIsSlice(s: string) returns (a: nat)
    ensures a + |TrimSpace(s)| <= |s| && TrimSpace(s) == s[a..a + |TrimSpace(s)|]
    ensures AllSpace(s[..a]) && AllSpace(s[a + |TrimSpace(s)|..])
  {
    var t := TrimLeft(s);
    var r := TrimRight(t);
    TrimLeftDropsLeadingSpace(s);
    TrimRightDropsTrailingSpace(t);
    a := |s| - |t|;
    assert s[a..] == t;
    assert r == s[a..a + |r|];
    assert s[a + |r|..] == t[|r|..];
  }

  /** Trimming leaves nothing exactly when `s` is all white space. */
  lemma TrimSpaceEmpty(s: string)
    ensures TrimSpace(s) == [] <==> AllSpace(s)
  {
    var a := TrimSpaceIsSlice(s);
    TrimSpaceIsTrimmed(s);
    if TrimSpace(s) == [] {
      assert AllSpace(s) by {
        forall i | 0 <= i < |s| ensures IsSpace(s[i]) {
          if i < a { assert s[..a][i] == s[i]; } else { assert s[a..][i - a] == s[i]; }
        }
      }
    } else {
      assert TrimSpace(s)[0] == s[a];
    }
  }

  /** The one thing `TrimSpace` can return: padding white space around a trimmed core is removed. */
  lemma {:induction false} TrimSpacePadded(lead: string, core: string, trail: string)
    requires AllSpace(lead) && AllSpace(trail) && IsTrimmed(core)
    ensures TrimSpace(lead + core + trail) == core
  {
    if core == [] {
      assert AllSpace(lead + core + trail) by {
        forall i | 0 <= i < |lead + core + trail|
          ensures IsSpace((lead + core + trail)[i])
        {
          if i < |lead| {
            assert (lead + core + trail)[i] == lead[i];
          } else {
            assert (lead + core + trail)[i] == trail[i - |lead|];
          }
        }
      }
      TrimSpaceEmpty(lead + core + trail);
    } else {
      assert lead + core + trail == lead + (core + trail);
      TrimLeftSpacePrefix(lead, core + trail);
      TrimRightSpaceSuffix(core, trail);
    }
  }

  lemma {:induction false} TrimLeftSpacePrefix(lead: string, s: string)
    requires AllSpace(lead) && (s == [] || !IsSpace(s[0]))
    ensures TrimLeft(lead + s) == s
    decreases |lead|
  {
    if lead != [] {
      assert (lead + s)[1..] == lead[1..] + s;
      TrimLeftSpacePrefix(lead[1..], s);
    }
  }

  lemma {:induction false} TrimRightSpaceSuffix(s: string, trail: string)
    requires AllSpace(trail) && (s == [] || !IsSpace(s[|s| - 1]))
    ensures TrimRight(s + trail) == s
    decreases |trail|
  {
    if trail != [] {
      assert (s + trail)[..|s + trail| - 1] == s + trail[..|trail| - 1];
      TrimRightSpaceSuffix(s, trail[..|trail| - 1]);
    } else {
      assert s + trail == s;
    }
  }

  lemma AllSpaceConcat(a: string, b: string)
    requires AllSpace(a) && AllSpace(b)
    ensures AllSpace(a + b)
  {
    forall i | 0 <= i < |a + b| ensures IsSpace((a + b)[i]) {
      if i < |a| { assert (a + b)[i] == a[i]; } else { assert (a + b)[i] == b[i - |a|]; }
    }
  }

  /** White space added at either end of a string does not change what trimming it gives. */
  lemma TrimSpaceIgnoresPadding(lead: string, s: string, trail: string)
    requires AllSpace(lead) && AllSpace(trail)
    ensures TrimSpace(lead + s + trail) == TrimSpace(s)
  {
    var a := TrimSpaceIsSlice(s);
    var core := TrimSpace(s);
    TrimSpaceIsTrimmed(s);
    var l, t := s[..a], s[a + |core|..];
    assert s == l + core + t;
    assert lead + s + trail == (lead + l) + core + (t + trail);
    AllSpaceConcat(lead, l);
    AllSpaceConcat(t, trail);
    TrimSpacePadded(lead + l, core, t + trail);
  }

  /** A trimmed string is left as it is. */
  lemma TrimSpaceOfTrimmed(s: string)
    requires IsTrimmed(s)
    ensures TrimSpace(s) == s
  {
    assert [] + s + [] == s;
    TrimSpacePadded([], s, []);
  }

  /** Trimming twice is trimming once. */
  lemma TrimSpaceIdempotent(s: string)
    ensures TrimSpace(TrimSpace(s)) == TrimSpace(s)
  {
    TrimSpaceIsTrimmed(s);
    TrimSpaceOfTrimmed(TrimSpace(s));
  }

  /** The number of occurrences of `c` in `s`. */
  function Count(s: string, c: char): nat {
    if s == [] then 0 else (if s[0] == c then 1 else 0) + Count(s[1..], c)
  }

  /**
   * `strings.Split(s, string(sep))`: the pieces of `s` between occurrences of
   * `sep`. There is one piece more than there are separators (the empty
   * string gives one empty piece) and no piece holds `sep`.
   */
  function Split(s: string, sep: char): (r: seq<string>)
    ensures |r| == Count(s, sep) + 1
    decreases |s|
  {
    if s == [] then [[]]
    else
      var rest := Split(s[1..], sep);
      if s[0] == sep then [[]] + rest else [[s[0]] + rest[0]] + rest[1..]
  }

  /** Appending the separator starts a new, empty last piece. */
  lemma {:induction false} SplitSnocSeparator(s: string, sep: char)
    ensures Split(s + [sep], sep) == Split(s, sep) + [[]]
    decreases |s|
  {
    if s == [] {
      assert ([sep])[1..] == [];
    } else {
      assert (s + [sep])[1..] == s[1..] + [sep];
      SplitSnocSeparator(s[1..], sep);
    }
  }

  /** Splitting a string that starts with `x`. */
  lemma SplitCons(x: char, y: string, sep: char)
    ensures Split([x] + y, sep) == if x == sep then [[]] + Split(y, sep)
                                   else [[x] + Split(y, sep)[0]] + Split(y, sep)[1..]
  {
    assert ([x] + y)[1..] == y;
  }

  /** Extending the last piece of a list with a new first piece `h` in front. */
  lemma ExtendLastCons(h: string, r: seq<string>, c: char)
    requires r != []
    ensures var q := [h] + r;
      q[..|q| - 1] + [q[|q| - 1] + [c]] == [h] + (r[..|r| - 1] + [r[|r| - 1] + [c]])
  {
    var q := [h] + r;
    assert q[..|q| - 1] == [h] + r[..|r| - 1];
  }

  /** Extending the last piece of a list whose first piece got `x` in front. */
  lemma ExtendLastHead(x: char, r: seq<string>, c: char)
    requires r != []
    ensures var q, e := [[x] + r[0]] + r[1..], r[..|r| - 1] + [r[|r| - 1] + [c]];
      q[..|q| - 1] + [q[|q| - 1] + [c]] == [[x] + e[0]] + e[1..]
  {
    var e := r[..|r| - 1] + [r[|r| - 1] + [c]];
    if |r| == 1 {
      assert [x] + (r[0] + [c]) == ([x] + r[0]) + [c];
    } else {
      assert e[0] == r[0];
      assert e[1..] == r[1..|r| - 1] + [r[|r| - 1] + [c]];
    }
  }

  /** Appending any other character extends the last piece. */
  lemma {:induction false} SplitSnocOther(s: string, c: char, sep: char)
    requires c != sep
    ensures var r := Split(s, sep);
      Split(s + [c], sep) == r[..|r| - 1] + [r[|r| - 1] + [c]]
    decreases |s|
  {
    if s == [] {
      SplitCons(c, [], sep);
      assert s + [c] == [c] + [];
    } else {
      var x, t := s[0], s[1..];
      assert s == [x] + t && s + [c] == [x] + (t + [c]);
      SplitSnocOther(t, c, sep);
      SplitCons(x, t, sep);
      SplitCons(x, t + [c], sep);
      if x == sep {
        ExtendLastCons([], Split(t, sep), c);
      } else {
        ExtendLastHead(x, Split(t, sep), c);
      }
    }
  }

  /** No piece of a split holds the separator. */
  lemma {:induction false} SplitPiecesLackSeparator(s: string, sep: char)
    ensures forall i :: 0 <= i < |Split(s, sep)| ==> sep !in Split(s, sep)[i]
    decreases |s|
  {
    if s != [] {
      SplitPiecesLackSeparator(s[1..], sep);
    }
  }

  /** `strings.Join(parts, string(sep))`: the parts with one separator between each two neighbours. */
  function Join(parts: seq<string>, sep: char): (r: string)
    ensures |r| + 1 >= |parts|
    decreases |parts|
  {
    if parts == [] then []
    else if |parts| == 1 then parts[0]
    else parts[0] + [sep] + Join(parts[1..], sep)
  }

  /** Joining the pieces back with the separator gives the original string. */
  lemma {:induction false} JoinSplit(s: string, sep: char)
    ensures Join(Split(s, sep), sep) == s
    decreases |s|
  {
    if s != [] {
      var rest := Split(s[1..], sep);
      JoinSplit(s[1..], sep);
      if s[0] == sep {
        assert ([[]] + rest)[1..] == rest;
        assert s == [sep] + s[1..];
      } else if |rest| == 1 {
        assert s == [s[0]] + s[1..];
      } else {
        var r := [[s[0]] + rest[0]] + rest[1..];
        assert r[1..] == rest[1..];
        assert Join(rest, sep) == rest[0] + [sep] + Join(rest[1..], sep);
        assert s == [s[0]] + s[1..];
      }
    }
  }

  /** Splitting a join of separator-free parts gives the parts back. */
  lemma {:induction false} SplitJoin(parts: seq<string>, sep: char)
    requires parts != []
    requires forall i :: 0 <= i < |parts| ==> sep !in parts[i]
    ensures Split(Join(parts, sep), sep) == parts
    decreases |parts|
  {
    if |parts| == 1 {
      SplitNoSeparator(parts[0], sep);
    } else {
      SplitJoin(parts[1..], sep);
      SplitAtSeparator(parts[0], Join(parts[1..], sep), sep);
      assert parts == [parts[0]] + parts[1..];
    }
  }

  lemma {:induction false} SplitNoSeparator(p: string, sep: char)
    requires sep !in p
    ensures Split(p, sep) == [p]
    decreases |p|
  {
    if p != [] {
      assert sep !in p[1..] by {
        forall i | 0 <= i < |p[1..]| ensures p[1..][i] != sep { assert p[1..][i] == p[i + 1]; }
      }
      SplitNoSeparator(p[1..], sep);
      assert p == [p[0]] + p[1..];
    }
  }

  lemma {:induction false} SplitAtSeparator(p: string, t: string, sep: char)
    requires sep !in p
    ensures Split(p + [sep] + t, sep) == [p] + Split(t, sep)
    decreases |p|
  {
    var s := p + [sep] + t;
    if p == [] {
      assert s[1..] == t;
    } else {
      assert s[1..] == p[1..] + [sep] + t;
      assert sep !in p[1..] by {
        forall i | 0 <= i < |p[1..]| ensures p[1..][i] != sep { assert p[1..][i] == p[i + 1]; }
      }
      SplitAtSeparator(p[1..], t, sep);
      assert p == [p[0]] + p[1..];
    }
  }

  /** The number of bytes `c` takes in UTF-8. */
  function Utf8Width(c: char): (n: nat)
    ensures 1 <= n <= 4
    ensures n == 1 <==> c as int < 0x80
  {
    if c as int < 0x80 then 1
    else if c as int < 0x800 then 2
    else if c as int < 0x1_0000 then 3
    else 4
  }

  predicate IsAscii(s: string) {
    forall i :: 0 <= i < |s| ==> s[i] as int < 0x80
  }

  /**
   * Go's `len(s)`: the length of `s` in UTF-8 bytes. It is at least the
   * number of characters and equals it exactly when `s` is ASCII.
   */
  function ByteLen(s: string): (n: nat)
    ensures |s| <= n <= 4 * |s|
    ensures n == |s| <==> IsAscii(s)
    decreases |s|
  {
    if s == [] then 0 else Utf8Width(s[0]) + ByteLen(s[1..])
  }
}
