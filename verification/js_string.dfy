/**
 * The few JavaScript string operations the screens rely on:
 * `String.prototype.trim`, `String.prototype.indexOf` and
 * `String.prototype.replace` with a one-character string pattern, and the
 * relational `<` on strings.
 *
 * Strings are sequences of Unicode scalar values, while JavaScript strings
 * are sequences of UTF-16 code units. `Utf16Length` gives the JavaScript
 * `length`; the order `Less` is the code-point order, which agrees with the
 * code-unit order on every string of Basic Multilingual Plane characters,
 * which covers every string these screens compare.
 */
module JsString {

  /** Code points that `trim` strips: ECMAScript WhiteSpace and LineTerminator. */
  predicate IsWhitespace(c: char)
  {
    || c == '\t' || c == '\n' || c == '\U{B}' || c == '\U{C}' || c == '\r'
    || c == ' ' || c == '\U{A0}' || c == '\U{1680}'
    || ('\U{2000}' <= c <= '\U{200A}')
    || c == '\U{2028}' || c == '\U{2029}' || c == '\U{202F}' || c == '\U{205F}'
    || c == '\U{3000}' || c == '\U{FEFF}'
  }

  predicate AllWhitespace(s: string)
  {
    forall i :: 0 <= i < |s| ==> IsWhitespace(s[i])
  }

  /** Every character of `s` from position `lo` up to, not including, `hi` is whitespace. */
  predicate WhitespaceBetween(s: string, lo: int, hi: int)
  {
    forall i :: lo <= i < hi && 0 <= i < |s| ==> IsWhitespace(s[i])
  }

  /** Number of whitespace characters at the front of `s`. */
  function LeadingWhitespace(s: string): (k: nat)
    ensures k <= |s|
    ensures WhitespaceBetween(s, 0, k)
    ensures k < |s| ==> !IsWhitespace(s[k])
  {
    if |s| == 0 || !IsWhitespace(s[0]) then 0
    else
      var k' := LeadingWhitespace(s[1..]);
      assert forall i :: 1 <= i < 1 + k' ==> s[i] == s[1..][i - 1];
      1 + k'
  }

  /** Index where the trailing run of whitespace of `s` begins. */
  function TrailingStart(s: string): (e: nat)
    ensures e <= |s|
    ensures WhitespaceBetween(s, e, |s|)
    ensures e > 0 ==> !IsWhitespace(s[e - 1])
  {
    if |s| == 0 || !IsWhitespace(s[|s| - 1]) then |s|
    else
      var e' := TrailingStart(s[..|s| - 1]);
      assert forall i :: e' <= i < |s| - 1 ==> s[i] == s[..|s| - 1][i];
      e'
  }

  /**
   * `s.trim()`: `s` without its leading and trailing whitespace. The result
   * is the slice of `s` between two all-whitespace margins; it is empty
   * exactly when `s` is all whitespace, and otherwise starts and ends with a
   * non-whitespace character.
   */
  function Trim(s: string): (r: string)
    ensures |r| <= |s|
    ensures |r| == 0 <==> AllWhitespace(s)
    ensures |r| > 0 ==> !IsWhitespace(r[0]) && !IsWhitespace(r[|r| - 1])
    ensures exists i :: 0 <= i <= |s| - |r| && r == s[i..i + |r|]
                        && WhitespaceBetween(s, 0, i) && WhitespaceBetween(s, i + |r|, |s|)
  {
    var k := LeadingWhitespace(s);
    var e := TrailingStart(s);
    TrimPieces(s, k, e);
    if k <= e then s[k..e] else []
  }

  /** How the two scans of `Trim` meet: they cross only on an all-whitespace string. */
  lemma TrimPieces(s: string, k: nat, e: nat)
    requires k == LeadingWhitespace(s) && e == TrailingStart(s)
    ensures k <= e <==> !AllWhitespace(s) || |s| == 0
    ensures k < e <==> !AllWhitespace(s)
    ensures AllWhitespace(s) ==> WhitespaceBetween(s, 0, |s|)
  {
    if !AllWhitespace(s) {
      var j :| 0 <= j < |s| && !IsWhitespace(s[j]);
      assert k <= j < e;
    } else if |s| > 0 {
      assert k == |s|;
      assert e == 0;
    }
  }

  /** `s.trim().length === 0`, the blankness test the guards use. */
  predicate IsBlank(s: string)
    ensures IsBlank(s) <==> AllWhitespace(s)
  {
    |Trim(s)| == 0
  }

  /**
   * `s.length` in JavaScript: the number of UTF-16 code units, one for a
   * character of the Basic Multilingual Plane and two (a surrogate pair) for
   * any character above U+FFFF.
   */
  function Utf16Length(s: string): (n: nat)
    ensures |s| <= n <= 2 * |s|
    ensures n == |s| <==> forall i :: 0 <= i < |s| ==> s[i] <= '\U{FFFF}'
    ensures n == 2 * |s| <==> forall i :: 0 <= i < |s| ==> s[i] > '\U{FFFF}'
  {
    if |s| == 0 then 0
    else
      assert forall i :: 1 <= i < |s| ==> s[i] == s[1..][i - 1];
      (if s[0] > '\U{FFFF}' then 2 else 1) + Utf16Length(s[1..])
  }

  /**
   * `length` adds up over concatenation. With the one-character cases of
   * `Utf16Length`'s contract this fixes its value on every string: one unit
   * per Basic Multilingual Plane character and two per character above it.
   */
  lemma {:induction false} Utf16LengthConcat(a: string, b: string)
    ensures Utf16Length(a + b) == Utf16Length(a) + Utf16Length(b)
    decreases |a|
  {
    if |a| > 0 {
      assert (a + b)[1..] == a[1..] + b;
      Utf16LengthConcat(a[1..], b);
    } else {
      assert a + b == b;
    }
  }

  /** A mixed string: one ASCII letter and two astral characters make five code units. */
  lemma MixedUtf16Length()
    ensures Utf16Length("a\U{1F5FC}\U{1F5FC}") == 5
  {
    var s := "a\U{1F5FC}\U{1F5FC}";
    Utf16LengthConcat("a", "\U{1F5FC}\U{1F5FC}");
    assert s == "a" + "\U{1F5FC}\U{1F5FC}";
  }

  /** A string is blank exactly when every character in it is whitespace. */
  lemma BlankIffAllWhitespace(s: string)
    ensures IsBlank(s) <==> forall i :: 0 <= i < |s| ==> IsWhitespace(s[i])
  {
  }

  /** Trimming twice is trimming once. */
  lemma TrimIdempotent(s: string)
    ensures Trim(Trim(s)) == Trim(s)
  {
    var t := Trim(s);
    if |t| > 0 {
      assert LeadingWhitespace(t) == 0;
      assert TrailingStart(t) == |t|;
    }
  }

  /**
   * `s.indexOf(c)`: the position of the first `c` in `s`, or -1 when `s`
   * has none.
   */
  function IndexOf(s: string, c: char): (i: int)
    ensures -1 <= i < |s|
    ensures i == -1 <==> c !in s
    ensures i >= 0 ==> s[i] == c && forall j :: 0 <= j < i ==> s[j] != c
  {
    if |s| == 0 then -1
    else if s[0] == c then 0
    else
      var j := IndexOf(s[1..], c);
      if j == -1 then -1
      else
        assert forall k :: 1 <= k <= j ==> s[k] == s[1..][k - 1];
        j + 1
  }

  /**
   * `s.replace(c, "")` with a one-character string pattern: JavaScript
   * replaces only the first occurrence, so `s` with its first `c` cut out,
   * or `s` itself when it holds no `c`.
   */
  function RemoveFirst(s: string, c: char): (r: string)
    ensures var i := IndexOf(s, c);
            (i == -1 ==> r == s) && (i >= 0 ==> r == s[..i] + s[i + 1..])
  {
    if |s| == 0 then s
    else if s[0] == c then s[1..]
    else
      RemoveFirstStep(s, c, RemoveFirst(s[1..], c));
      [s[0]] + RemoveFirst(s[1..], c)
  }

  /** Past a leading non-`c`, the first `c` of `s` is the first of its tail, one further on. */
  lemma IndexOfStep(s: string, c: char)
    requires |s| > 0 && s[0] != c
    ensures IndexOf(s, c) == if IndexOf(s[1..], c) == -1 then -1 else IndexOf(s[1..], c) + 1
  {
  }

  /** `RemoveFirst` as a single expression over the position `IndexOf` reports. */
  lemma RemoveFirstAt(s: string, c: char)
    ensures RemoveFirst(s, c) == if IndexOf(s, c) < 0 then s else s[..IndexOf(s, c)] + s[IndexOf(s, c) + 1..]
  {
  }

  /** The recursive case of `RemoveFirst`: a leading non-`c` is kept. */
  lemma RemoveFirstStep(s: string, c: char, tail: string)
    requires |s| > 0 && s[0] != c
    requires var j := IndexOf(s[1..], c);
             (j == -1 ==> tail == s[1..]) && (j >= 0 ==> tail == s[1..][..j] + s[1..][j + 1..])
    ensures var i := IndexOf(s, c);
            (i == -1 ==> [s[0]] + tail == s) && (i >= 0 ==> [s[0]] + tail == s[..i] + s[i + 1..])
  {
    var j := IndexOf(s[1..], c);
    IndexOfStep(s, c);
    assert s == [s[0]] + s[1..];
    if j >= 0 {
      ConsSplice(s[0], s[1..], j);
    }
  }

  /** Cutting position `j` out of `t` and then putting `x` in front is cutting `j + 1` out of `[x] + t`. */
  lemma ConsSplice(x: char, t: string, j: nat)
    requires j < |t|
    ensures [x] + (t[..j] + t[j + 1..]) == ([x] + t)[..j + 1] + ([x] + t)[j + 2..]
  {
    var s := [x] + t;
    assert s[..j + 1] == [x] + t[..j];
    assert s[j + 2..] == t[j + 1..];
  }

  /**
   * What `RemoveFirst` keeps: one character fewer exactly when `c` occurs,
   * and then every character of `s` but one `c`.
   */
  lemma RemoveFirstFacts(s: string, c: char)
    ensures |RemoveFirst(s, c)| == if c in s then |s| - 1 else |s|
    ensures multiset(RemoveFirst(s, c)) + (if c in s then multiset{c} else multiset{}) == multiset(s)
    ensures c !in s ==> RemoveFirst(s, c) == s
  {
    var i := IndexOf(s, c);
    if i >= 0 {
      SpliceFacts(s, i, RemoveFirst(s, c));
    }
  }

  /** Cutting position `i` out of `s` loses one character: the one at `i`. */
  lemma SpliceFacts(s: string, i: nat, r: string)
    requires i < |s| && r == s[..i] + s[i + 1..]
    ensures |r| == |s| - 1
    ensures multiset(r) + multiset{s[i]} == multiset(s)
  {
    var front, back := s[..i], s[i + 1..];
    assert s == front + [s[i]] + back;
    calc {
      multiset(s);
      multiset(front + [s[i]] + back);
      multiset(front) + multiset([s[i]]) + multiset(back);
    }
  }

  /**
   * JavaScript `a < b` on strings: the first position where they differ
   * decides, and a proper prefix is smaller than the longer string.
   */
  predicate Less(a: string, b: string)
    ensures Less(a, b) ==> a != b
    ensures |a| == 0 ==> (Less(a, b) <==> |b| > 0)
    decreases |a|
  {
    if |a| == 0 then |b| > 0
    else if |b| == 0 then false
    else if a[0] != b[0] then a[0] < b[0]
    else Less(a[1..], b[1..])
  }

  /** JavaScript `a <= b` on strings, that is `!(b < a)`. */
  predicate LessOrEqual(a: string, b: string)
    ensures LessOrEqual(a, b) <==> a == b || Less(a, b)
  {
    LessConnected(a, b);
    LessAsymmetric(a, b);
    !Less(b, a)
  }

  /** `a` and `b` agree on their first `k` characters. */
  predicate SamePrefix(a: string, b: string, k: nat)
  {
    k <= |a| && k <= |b| && forall j :: 0 <= j < k ==> a[j] == b[j]
  }

  /** Dropping an equal first character shifts a common prefix by one. */
  lemma SamePrefixTail(a: string, b: string, k: nat)
    requires |a| > 0 && |b| > 0 && a[0] == b[0] && k > 0
    ensures SamePrefix(a, b, k) <==> SamePrefix(a[1..], b[1..], k - 1)
  {
    if SamePrefix(a[1..], b[1..], k - 1) {
      forall j | 0 < j < k
        ensures a[j] == b[j]
      {
        assert a[j] == a[1..][j - 1] && b[j] == b[1..][j - 1];
      }
    }
  }

  /** A proper prefix is smaller. */
  lemma {:induction false} LessFromPrefix(a: string, b: string)
    requires |a| < |b| && SamePrefix(a, b, |a|)
    ensures Less(a, b)
    decreases |a|
  {
    if |a| > 0 {
      SamePrefixTail(a, b, |a|);
      LessFromPrefix(a[1..], b[1..]);
    }
  }

  /** A smaller character at the first difference makes the string smaller. */
  lemma {:induction false} LessFromDifference(a: string, b: string, k: nat)
    requires k < |a| && k < |b| && SamePrefix(a, b, k) && a[k] < b[k]
    ensures Less(a, b)
    decreases k
  {
    if k > 0 {
      SamePrefixTail(a, b, k);
      LessFromDifference(a[1..], b[1..], k - 1);
    }
  }

  /** A smaller string is a proper prefix or has a smaller character at some first difference. */
  lemma {:induction false} LessHasWitness(a: string, b: string)
    requires Less(a, b)
    ensures (|a| < |b| && SamePrefix(a, b, |a|))
            || (exists k: nat :: k < |a| && k < |b| && SamePrefix(a, b, k) && a[k] < b[k])
    decreases |a|
  {
    if |a| > 0 && a[0] == b[0] {
      LessHasWitness(a[1..], b[1..]);
      if |a| - 1 < |b| - 1 && SamePrefix(a[1..], b[1..], |a| - 1) {
        SamePrefixTail(a, b, |a|);
      } else {
        var k: nat :| k < |a| - 1 && k < |b| - 1 && SamePrefix(a[1..], b[1..], k) && a[1..][k] < b[1..][k];
        SamePrefixTail(a, b, k + 1);
        assert a[k + 1] < b[k + 1];
      }
    } else if |a| > 0 {
      assert SamePrefix(a, b, 0);
    }
  }

  /**
   * `Less` agrees with the textbook definition: `a` is a proper prefix of
   * `b`, or at the first differing position `a` holds the smaller character.
   */
  lemma LessIffFirstDifference(a: string, b: string)
    ensures Less(a, b) <==>
            (|a| < |b| && SamePrefix(a, b, |a|))
            || (exists k: nat :: k < |a| && k < |b| && SamePrefix(a, b, k) && a[k] < b[k])
  {
    if Less(a, b) {
      LessHasWitness(a, b);
    } else if |a| < |b| && SamePrefix(a, b, |a|) {
      LessFromPrefix(a, b);
    } else if exists k: nat :: k < |a| && k < |b| && SamePrefix(a, b, k) && a[k] < b[k] {
      var k: nat :| k < |a| && k < |b| && SamePrefix(a, b, k) && a[k] < b[k];
      LessFromDifference(a, b, k);
    }
  }

  lemma {:induction false} LessIrreflexive(a: string)
    ensures !Less(a, a)
    decreases |a|
  {
    if |a| > 0 {
      LessIrreflexive(a[1..]);
    }
  }

  lemma {:induction false} LessAsymmetric(a: string, b: string)
    ensures Less(a, b) ==> !Less(b, a)
    decreases |a|
  {
    if |a| > 0 && |b| > 0 && a[0] == b[0] {
      LessAsymmetric(a[1..], b[1..]);
    }
  }

  /** Two different strings are always ordered one way or the other. */
  lemma {:induction false} LessConnected(a: string, b: string)
    ensures a != b ==> Less(a, b) || Less(b, a)
    decreases |a|
  {
    if |a| > 0 && |b| > 0 && a[0] == b[0] {
      LessConnected(a[1..], b[1..]);
      if a[1..] == b[1..] {
        assert a == [a[0]] + a[1..] && b == [b[0]] + b[1..];
      }
    }
  }

  lemma {:induction false} LessTransitive(a: string, b: string, c: string)
    requires Less(a, b) && Less(b, c)
    ensures Less(a, c)
    decreases |a|
  {
    if |a| > 0 && a[0] == b[0] && b[0] == c[0] {
      LessTransitive(a[1..], b[1..], c[1..]);
    }
  }

  /** `<=` on strings is a total preorder: it is total and transitive. */
  lemma LessOrEqualTotal(a: string, b: string)
    ensures LessOrEqual(a, b) || LessOrEqual(b, a)
  {
    LessAsymmetric(a, b);
  }

  lemma LessOrEqualTransitive(a: string, b: string, c: string)
    requires LessOrEqual(a, b) && LessOrEqual(b, c)
    ensures LessOrEqual(a, c)
  {
    if Less(c, a) {
      LessConnected(a, b);
      LessConnected(b, c);
      if a == b {
      } else if b == c {
      } else {
        LessTransitive(a, b, c);
        LessAsymmetric(a, c);
      }
    }
  }
}
