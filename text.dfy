/**
  The string operations the engine takes from Python's `str`: case mapping,
  whitespace stripping and splitting, substring tests, `join`, and the
  code-point order that `sorted` uses on strings.
  Case mapping covers ASCII letters only; whitespace is the full set that
  `str.isspace()` accepts.
 */
module Text {

  /** Characters for which Python's `str.isspace()` holds. */
  predicate IsSpace(c: char)
  {
    ('\t' <= c <= '\r') || ('\U{1C}' <= c <= ' ') ||
    c == '\U{85}' || c == '\U{A0}' || c == '\U{1680}' ||
    ('\U{2000}' <= c <= '\U{200A}') ||
    c == '\U{2028}' || c == '\U{2029}' || c == '\U{202F}' || c == '\U{205F}' || c == '\U{3000}'
  }

  predicate AllSpace(s: string)
  {
    forall i :: 0 <= i < |s| ==> IsSpace(s[i])
  }

  predicate IsLetter(c: char)
  {
    'A' <= c <= 'Z' || 'a' <= c <= 'z'
  }

  function LowerChar(c: char): char
  {
    if 'A' <= c <= 'Z' then (c as int + 32) as char else c
  }

  function UpperChar(c: char): char
  {
    if 'a' <= c <= 'z' then (c as int - 32) as char else c
  }

  /** `s.lower()` */
  function Lower(s: string): string
  {
    seq(|s|, i requires 0 <= i < |s| => LowerChar(s[i]))
  }

  /** `s.upper()` */
  function Upper(s: string): string
  {
    seq(|s|, i requires 0 <= i < |s| => UpperChar(s[i]))
  }

  /** `s.title()`: a letter is upper-cased when it starts a run of letters, lower-cased otherwise. */
  function Title(s: string): string
  {
    TitleFrom(s, false)
  }

  function TitleFrom(s: string, inWord: bool): string
    decreases |s|
  {
    if s == [] then []
    else [if inWord then LowerChar(s[0]) else UpperChar(s[0])] + TitleFrom(s[1..], IsLetter(s[0]))
  }

  function TrimLeft(s: string): string
    decreases |s|
  {
    if s != [] && IsSpace(s[0]) then TrimLeft(s[1..]) else s
  }

  function TrimRight(s: string): string
    decreases |s|
  {
    if s != [] && IsSpace(s[|s| - 1]) then TrimRight(s[..|s| - 1]) else s
  }

  /** `s.strip()` */
  function Strip(s: string): string
  {
    TrimRight(TrimLeft(s))
  }

  /** `sub` occurs in `s` starting at position `i`. */
  predicate OccursAt(s: string, sub: string, i: int)
  {
    0 <= i && i + |sub| <= |s| && s[i..i + |sub|] == sub
  }

  /** `sub in s` */
  predicate Contains(s: string, sub: string)
  {
    exists i :: 0 <= i <= |s| - |sub| && OccursAt(s, sub, i)
  }

  /** Index of the first `c` in `s`, or `|s|` when there is none. */
  function Find(s: string, c: char): (r: nat)
    ensures r <= |s|
    ensures r < |s| <==> c in s
    ensures r < |s| ==> s[r] == c
    ensures forall j :: 0 <= j < r ==> s[j] != c
  {
    if s == [] then 0
    else if s[0] == c then 0
    else 1 + Find(s[1..], c)
  }

  /** End of the run of non-space characters that starts at `i`. */
  function WordEnd(s: string, i: nat): (r: nat)
    requires i <= |s|
    ensures i <= r <= |s|
    ensures forall j :: i <= j < r ==> !IsSpace(s[j])
    ensures r == |s| || IsSpace(s[r])
    decreases |s| - i
  {
    if i == |s| || IsSpace(s[i]) then i else WordEnd(s, i + 1)
  }

  /** `s.split()`: the maximal runs of non-space characters, in order. */
  function Split(s: string): seq<string>
    decreases |s|
  {
    if s == [] then []
    else if IsSpace(s[0]) then Split(s[1..])
    else
      var n := WordEnd(s, 1);
      [s[..n]] + Split(s[n..])
  }

  /** `sep.join(parts)` */
  function Join(sep: string, parts: seq<string>): string
  {
    if parts == [] then []
    else if |parts| == 1 then parts[0]
    else parts[0] + sep + Join(sep, parts[1..])
  }

  /** `a <= b` on Python strings: lexicographic by code point, a prefix comes first. */
  predicate StrLe(a: string, b: string)
  {
    a == [] || (b != [] && (a[0] < b[0] || (a[0] == b[0] && StrLe(a[1..], b[1..]))))
  }

  predicate SortedStrings(s: seq<string>)
  {
    forall i, j :: 0 <= i < j < |s| ==> StrLe(s[i], s[j])
  }

  function InsertString(x: string, s: seq<string>): (r: seq<string>)
    ensures multiset(r) == multiset(s) + multiset{x}
  {
    if s == [] then [x]
    else if StrLe(x, s[0]) then [x] + s
    else
      assert s == [s[0]] + s[1..];
      [s[0]] + InsertString(x, s[1..])
  }

  /** `sorted(s)` on strings, as an insertion sort. */
  function SortStrings(s: seq<string>): (r: seq<string>)
    ensures multiset(r) == multiset(s)
  {
    if s == [] then []
    else
      assert s == [s[0]] + s[1..];
      InsertString(s[0], SortStrings(s[1..]))
  }

  // ---------------------------------------------------------------------
  // Lemmas

  lemma {:induction false} TrimLeftBlank(s: string)
    ensures AllSpace(TrimLeft(s)) <==> AllSpace(s)
    ensures TrimLeft(s) == [] <==> AllSpace(s)
    decreases |s|
  {
    if s != [] && IsSpace(s[0]) {
      TrimLeftBlank(s[1..]);
      assert AllSpace(s) <==> AllSpace(s[1..]) by {
        if AllSpace(s[1..]) {
          forall i | 0 <= i < |s| ensures IsSpace(s[i]) {
            if i > 0 { assert s[i] == s[1..][i - 1]; }
          }
        }
      }
    }
  }

  lemma {:induction false} TrimRightBlank(s: string)
    ensures TrimRight(s) == [] <==> AllSpace(s)
    decreases |s|
  {
    if s != [] && IsSpace(s[|s| - 1]) {
      var p := s[..|s| - 1];
      TrimRightBlank(p);
      assert AllSpace(s) <==> AllSpace(p) by {
        if AllSpace(p) {
          forall i | 0 <= i < |s| ensures IsSpace(s[i]) {
            if i < |s| - 1 { assert s[i] == p[i]; }
          }
        }
      }
    }
  }

  /** `s.strip() == ''` exactly when `s` consists of whitespace only. */
  lemma StripEmptyIffBlank(s: string)
    ensures Strip(s) == [] <==> AllSpace(s)
  {
    TrimLeftBlank(s);
    TrimRightBlank(TrimLeft(s));
  }

  /** Lower-casing neither creates nor removes whitespace. */
  lemma LowerBlank(s: string)
    ensures AllSpace(Lower(s)) <==> AllSpace(s)
  {
    if AllSpace(Lower(s)) {
      forall i | 0 <= i < |s| ensures IsSpace(s[i]) {
        assert IsSpace(Lower(s)[i]);
      }
    }
  }

  /** `s.split()` is empty exactly when `s` is whitespace only. */
  lemma {:induction false} SplitEmptyIffBlank(s: string)
    ensures Split(s) == [] <==> AllSpace(s)
    decreases |s|
  {
    if s != [] && IsSpace(s[0]) {
      SplitEmptyIffBlank(s[1..]);
      assert AllSpace(s) <==> AllSpace(s[1..]) by {
        if AllSpace(s[1..]) {
          forall i | 0 <= i < |s| ensures IsSpace(s[i]) {
            if i > 0 { assert s[i] == s[1..][i - 1]; }
          }
        }
      }
    }
  }

  lemma ContainsInSuffix(s: string, k: nat, sub: string)
    requires k <= |s|
    requires Contains(s[k..], sub)
    ensures Contains(s, sub)
  {
    var i :| 0 <= i <= |s[k..]| - |sub| && OccursAt(s[k..], sub, i);
    assert s[k..][i..i + |sub|] == s[k + i..k + i + |sub|];
    assert OccursAt(s, sub, k + i);
  }

  /** Every word `split` produces is a substring of the text it came from. */
  lemma {:induction false} SplitWordsOccur(s: string)
    ensures forall w :: w in Split(s) ==> Contains(s, w)
    decreases |s|
  {
    if s == [] {
    } else if IsSpace(s[0]) {
      SplitWordsOccur(s[1..]);
      forall w | w in Split(s) ensures Contains(s, w) {
        ContainsInSuffix(s, 1, w);
      }
    } else {
      var n := WordEnd(s, 1);
      SplitWordsOccur(s[n..]);
      forall w | w in Split(s) ensures Contains(s, w) {
        if w == s[..n] {
          assert OccursAt(s, w, 0);
        } else {
          assert w in Split(s[n..]);
          ContainsInSuffix(s, n, w);
        }
      }
    }
  }

  lemma {:induction false} StrLeTotal(a: string, b: string)
    ensures StrLe(a, b) || StrLe(b, a)
    decreases |a|
  {
    if a != [] && b != [] && a[0] == b[0] {
      StrLeTotal(a[1..], b[1..]);
    }
  }

  lemma {:induction false} StrLeTrans(a: string, b: string, c: string)
    requires StrLe(a, b) && StrLe(b, c)
    ensures StrLe(a, c)
    decreases |a|
  {
    if a != [] && a[0] == b[0] && b[0] == c[0] {
      StrLeTrans(a[1..], b[1..], c[1..]);
    }
  }

  lemma {:induction false} InsertStringSorted(x: string, s: seq<string>)
    requires SortedStrings(s)
    ensures SortedStrings(InsertString(x, s))
    decreases |s|
  {
    if s == [] {
    } else if StrLe(x, s[0]) {
      forall k | 0 < k < |s| ensures StrLe(x, s[k]) {
        StrLeTrans(x, s[0], s[k]);
      }
    } else {
      StrLeTotal(x, s[0]);
      InsertStringSorted(x, s[1..]);
      var r := InsertString(x, s);
      var t := InsertString(x, s[1..]);
      forall j | 0 <= j < |t| ensures StrLe(s[0], t[j]) {
        assert t[j] in multiset(t);
        assert t[j] == x || t[j] in multiset(s[1..]);
      }
    }
  }

  /** `sorted` returns its argument's strings in ascending order. */
  lemma {:induction false} SortStringsSorted(s: seq<string>)
    ensures SortedStrings(SortStrings(s))
  {
    if s != [] {
      SortStringsSorted(s[1..]);
      InsertStringSorted(s[0], SortStrings(s[1..]));
    }
  }

  /** Stripping keeps a middle slice of the text and drops only whitespace around it. */
  lemma {:induction false} StripIsSlice(s: string) returns (a: nat, b: nat)
    ensures a <= b <= |s|
    ensures Strip(s) == s[a..b]
    ensures forall i :: 0 <= i < a ==> IsSpace(s[i])
    ensures forall i :: b <= i < |s| ==> IsSpace(s[i])
  {
    a := TrimLeftAt(s);
    var t := s[a..];
    var c := TrimRightAt(t);
    b := a + c;
    assert t[..c] == s[a..b];
    forall i | b <= i < |s| ensures IsSpace(s[i]) {
      assert s[i] == t[i - a];
    }
  }

  lemma {:induction false} TrimLeftAt(s: string) returns (a: nat)
    ensures a <= |s| && TrimLeft(s) == s[a..]
    ensures forall i :: 0 <= i < a ==> IsSpace(s[i])
    decreases |s|
  {
    if s != [] && IsSpace(s[0]) {
      var a' := TrimLeftAt(s[1..]);
      a := a' + 1;
      assert s[1..][a'..] == s[a..];
      forall i | 0 < i < a ensures IsSpace(s[i]) {
        assert s[i] == s[1..][i - 1];
      }
    } else {
      a := 0;
    }
  }

  lemma {:induction false} TrimRightAt(s: string) returns (b: nat)
    ensures b <= |s| && TrimRight(s) == s[..b]
    ensures forall i :: b <= i < |s| ==> IsSpace(s[i])
    decreases |s|
  {
    if s != [] && IsSpace(s[|s| - 1]) {
      var p := s[..|s| - 1];
      b := TrimRightAt(p);
      assert p[..b] == s[..b];
      forall i | b <= i < |s| ensures IsSpace(s[i]) {
        if i < |s| - 1 { assert s[i] == p[i]; }
      }
    } else {
      b := |s|;
    }
  }

  lemma SliceOfSlice(s: string, a: nat, b: nat, i: nat, j: nat)
    requires a <= b <= |s| && i <= j <= b - a
    ensures s[a..b][i..j] == s[a + i..a + j]
  {
    var t := s[a..b];
    assert |t[i..j]| == |s[a + i..a + j]|;
    forall x | 0 <= x < j - i ensures t[i..j][x] == s[a + i..a + j][x] {
      assert t[i + x] == s[a + i + x];
    }
  }

  /** A substring of `s` is a substring of any text that has `s` inside it. */
  lemma ContainsWithin(a: string, s: string, c: string, sub: string)
    requires Contains(s, sub)
    ensures Contains(a + s + c, sub)
  {
    var i :| 0 <= i <= |s| - |sub| && OccursAt(s, sub, i);
    var t := a + s + c;
    assert t[|a| + i..|a| + i + |sub|] == s[i..i + |sub|];
    assert OccursAt(t, sub, |a| + i);
  }

  lemma ContainsSelf(s: string)
    ensures Contains(s, s)
  {
    assert OccursAt(s, s, 0);
  }

  /** The middle piece of a concatenation occurs in it. */
  lemma ContainsMiddle(a: string, b: string, c: string)
    ensures Contains(a + b + c, b)
  {
    ContainsSelf(b);
    ContainsWithin(a, b, c, b);
  }

  /** Every part of `sep.join(parts)` occurs in it. */
  lemma {:induction false} JoinContainsParts(sep: string, parts: seq<string>, k: nat)
    requires k < |parts|
    ensures Contains(Join(sep, parts), parts[k])
    decreases |parts|
  {
    if |parts| == 1 {
      ContainsSelf(parts[0]);
    } else if k == 0 {
      assert Join(sep, parts) == [] + parts[0] + (sep + Join(sep, parts[1..]));
      ContainsMiddle([], parts[0], sep + Join(sep, parts[1..]));
    } else {
      JoinContainsParts(sep, parts[1..], k - 1);
      assert Join(sep, parts) == parts[0] + sep + Join(sep, parts[1..]) + [];
      ContainsWithin(parts[0] + sep, Join(sep, parts[1..]), [], parts[k]);
    }
  }
}
