/** Text helpers: decimal rendering, NUL-terminated fields, substring search, lexicographic order. */
module Text {
  // ---- Decimal ---------------------------------------------------------------

  function Digit(d: nat): char
    requires d < 10
  {
    "0123456789"[d]
  }

  function Dec(n: nat): string {
    if n < 10 then [Digit(n)] else Dec(n / 10) + [Digit(n % 10)]
  }

  function DigitValue(c: char): int { c as int - '0' as int }

  function Value(s: string): int {
    if s == [] then 0 else 10 * Value(s[..|s| - 1]) + DigitValue(s[|s| - 1])
  }

  predicate IsDigits(s: string) { forall c | c in s :: '0' <= c <= '9' }

  lemma {:induction false} DecReadsBack(n: nat)
    ensures Value(Dec(n)) == n && IsDigits(Dec(n)) && Dec(n) != []
  {
    if n >= 10 {
      DecReadsBack(n / 10);
      assert Dec(n)[..|Dec(n)| - 1] == Dec(n / 10);
    } else {
      assert Value(Dec(n)) == 10 * Value([]) + DigitValue(Digit(n));
    }
  }

  lemma DecInjective(m: nat, n: nat)
    requires Dec(m) == Dec(n)
    ensures m == n
  {
    DecReadsBack(m);
    DecReadsBack(n);
  }

  // ---- NUL-terminated fields ---------------------------------------------------

  const NUL: char := '\0'

  predicate NulFree(s: string) { NUL !in s }

  function Terminated(fields: seq<string>): string {
    if fields == [] then "" else fields[0] + [NUL] + Terminated(fields[1..])
  }

  /** Text up to the first stop character is determined. */
  lemma UpToStop(a: string, x: string, b: string, y: string, stop: char)
    requires stop !in a && stop !in b
    requires a + [stop] + x == b + [stop] + y
    ensures a == b && x == y
  {
    var s := a + [stop] + x;
    var t := b + [stop] + y;
    assert forall k | 0 <= k < |a| :: s[k] == a[k];
    assert forall k | 0 <= k < |b| :: t[k] == b[k];
    assert s[|a|] == stop && t[|b|] == stop;
    assert a == s[..|a|] && b == t[..|b|];
    assert x == s[|a| + 1..] && y == t[|b| + 1..];
  }

  /** NUL-terminated fields are uniquely decodable. */
  lemma {:induction false} TerminatedInjective(a: seq<string>, b: seq<string>)
    requires forall f | f in a :: NulFree(f)
    requires forall f | f in b :: NulFree(f)
    requires Terminated(a) == Terminated(b)
    ensures a == b
  {
    if a != [] && b != [] {
      assert a[0] in a && b[0] in b;
      UpToStop(a[0], Terminated(a[1..]), b[0], Terminated(b[1..]), NUL);
      TerminatedInjective(a[1..], b[1..]);
    } else {
      assert |Terminated(a)| == 0 ==> a == [];
    }
  }

  lemma {:induction false} TerminatedAppend(a: seq<string>, b: seq<string>)
    ensures Terminated(a + b) == Terminated(a) + Terminated(b)
  {
    if a == [] {
      assert a + b == b;
    } else {
      assert (a + b)[1..] == a[1..] + b;
      TerminatedAppend(a[1..], b);
    }
  }

  // ---- Substrings -----------------------------------------------------------------

  predicate OccursAt(t: string, s: string, i: int) {
    0 <= i && i + |t| <= |s| && s[i..i + |t|] == t
  }

  predicate Contains(s: string, t: string) { exists i | 0 <= i <= |s| :: OccursAt(t, s, i) }

  lemma OccursChars(t: string, s: string, i: int)
    ensures OccursAt(t, s, i) <==>
      0 <= i && i + |t| <= |s| && forall k | 0 <= k < |t| :: s[i + k] == t[k]
  {
    if 0 <= i && i + |t| <= |s| {
      var part := s[i..i + |t|];
      assert forall k | 0 <= k < |t| :: part[k] == s[i + k];
    }
  }

  /** A text whose first character is absent from a prefix occurs after it, if anywhere. */
  lemma ContainsAfter(pre: string, s: string, t: string)
    requires t != "" && t[0] !in pre
    ensures Contains(pre + s, t) <==> Contains(s, t)
  {
    if Contains(pre + s, t) {
      var i :| 0 <= i <= |pre + s| && OccursAt(t, pre + s, i);
      OccursChars(t, pre + s, i);
      assert (pre + s)[i + 0] == t[0];
      assert i >= |pre|;
      assert OccursAt(t, s, i - |pre|) by { assert (pre + s)[i..i + |t|] == s[i - |pre|..i - |pre| + |t|]; }
    }
    if Contains(s, t) {
      var i :| 0 <= i <= |s| && OccursAt(t, s, i);
      assert OccursAt(t, pre + s, |pre| + i) by { assert (pre + s)[|pre| + i..|pre| + i + |t|] == s[i..i + |t|]; }
    }
  }

  lemma ContainsChars(s: string, t: string, c: char)
    requires Contains(s, t) && c in t
    ensures c in s
  {
    var i :| 0 <= i <= |s| && OccursAt(t, s, i);
    OccursChars(t, s, i);
    var k :| 0 <= k < |t| && t[k] == c;
    assert s[i + k] in s;
  }

  lemma InPart(pre: string, c: char, post: string, i: int)
    requires 0 <= i < |pre + [c] + post|
    ensures i == |pre| || (pre + [c] + post)[i] in pre || (pre + [c] + post)[i] in post
  {
    if i < |pre| { assert (pre + [c] + post)[i] == pre[i]; }
    if i > |pre| { assert (pre + [c] + post)[i] == post[i - |pre| - 1]; }
  }

  lemma SameField(mark: string, d: string, z: string, e: string, tail: string)
    requires mark + d + "-" + z == mark + e + "-" + tail && '-' !in d && '-' !in e
    ensures d == e
  {
    assert d + ['-'] + z == (mark + d + "-" + z)[|mark|..];
    assert e + ['-'] + tail == (mark + e + "-" + tail)[|mark|..];
    UpToStop(d, z, e, tail, '-');
  }

  /** Where a marked field can occur in a text that holds the mark's first character once. */
  lemma MarkedFieldAt(pre: string, mark: string, rest: string, t: string, i: int) returns (z: string)
    requires mark != "" && mark[0] !in pre && mark[0] !in mark[1..] + rest
    requires t != "" && t[0] == mark[0] && OccursAt(t, pre + mark + rest, i)
    ensures t + z == mark + rest
  {
    var s := pre + mark + rest;
    OccursChars(t, s, i);
    assert s[i + 0] == mark[0];
    assert s == pre + [mark[0]] + (mark[1..] + rest);
    InPart(pre, mark[0], mark[1..] + rest, i);
    z := s[i + |t|..];
    assert t + z == s[i..] == mark + rest;
  }

  /** A marked field ended by a dash, found inside a text that holds one marked field, is that field. */
  lemma MarkedField(pre: string, mark: string, d: string, e: string, tail: string)
    requires mark != "" && mark[0] !in pre && mark[0] !in mark[1..] + (e + "-" + tail)
    requires '-' !in d && '-' !in e
    ensures Contains(pre + mark + (e + "-" + tail), mark + d + "-") <==> d == e
  {
    var s, t := pre + mark + (e + "-" + tail), mark + d + "-";
    if Contains(s, t) {
      var i :| 0 <= i <= |s| && OccursAt(t, s, i);
      var z := MarkedFieldAt(pre, mark, e + "-" + tail, t, i);
      assert mark + e + "-" + tail == mark + (e + "-" + tail);
      SameField(mark, d, z, e, tail);
    }
    if d == e {
      assert s == pre + t + tail;
      assert OccursAt(t, s, |pre|);
    }
  }

  /** A NUL-free text does not straddle a terminator. */
  lemma NotAcross(t: string, s: string, i: int, at: int)
    requires OccursAt(t, s, i) && 0 <= at < |s| && s[at] !in t
    ensures i + |t| <= at || i > at
  {
    OccursChars(t, s, i);
  }

  lemma SliceAfter(pre: string, rest: string, j: nat, n: nat)
    requires j + n <= |rest|
    ensures (pre + rest)[|pre| + j..|pre| + j + n] == rest[j..j + n]
  {
  }

  /** A text without the stop character never straddles one. */
  lemma ContainsInParts(head: string, stop: char, rest: string, t: string)
    requires stop !in t
    ensures Contains(head + [stop] + rest, t) <==> Contains(head, t) || Contains(rest, t)
  {
    var s := head + [stop] + rest;
    if Contains(s, t) {
      var i :| 0 <= i <= |s| && OccursAt(t, s, i);
      NotAcross(t, s, i, |head|);
      if i + |t| <= |head| {
        assert OccursAt(t, head, i) by { assert s[i..i + |t|] == head[i..i + |t|]; }
      } else {
        var j := i - |head| - 1;
        SliceAfter(head + [stop], rest, j, |t|);
        assert OccursAt(t, rest, j);
      }
    }
    if Contains(head, t) {
      var i :| 0 <= i <= |head| && OccursAt(t, head, i);
      assert OccursAt(t, s, i) by { assert s[i..i + |t|] == head[i..i + |t|]; }
    }
    if Contains(rest, t) {
      var j :| 0 <= j <= |rest| && OccursAt(t, rest, j);
      var i := |head| + 1 + j;
      SliceAfter(head + [stop], rest, j, |t|);
      assert OccursAt(t, s, i);
    }
  }

  /** A NUL-free text occurs in terminated fields exactly when it occurs in one of them. */
  lemma {:induction false} ContainsInFields(fields: seq<string>, t: string)
    requires t != "" && NulFree(t)
    ensures Contains(Terminated(fields), t) <==> exists f | f in fields :: Contains(f, t)
  {
    if fields == [] {
      assert Terminated(fields) == "";
    } else {
      ContainsInFields(fields[1..], t);
      ContainsInParts(fields[0], NUL, Terminated(fields[1..]), t);
      hide Contains, NulFree;
      assert fields == [fields[0]] + fields[1..];
    }
  }

  // ---- Lexicographic order ----------------------------------------------------------

  predicate LexLe(a: string, b: string) {
    if a == "" then true
    else if b == "" then false
    else if a[0] != b[0] then a[0] < b[0]
    else LexLe(a[1..], b[1..])
  }

  /** Where two texts part, at `k`, decides their order: the one that ends there, or has the smaller character. */
  lemma {:induction false} LexLeExactly(a: string, b: string, k: nat)
    requires k <= |a| && k <= |b| && a[..k] == b[..k] && (k < |a| && k < |b| ==> a[k] != b[k])
    ensures LexLe(a, b) <==> k == |a| || (k < |b| && a[k] < b[k])
  {
    if k == 0 {
    } else {
      assert a[0] == a[..k][0] == b[..k][0] == b[0];
      assert a[1..][..k - 1] == a[..k][1..] && b[1..][..k - 1] == b[..k][1..];
      LexLeExactly(a[1..], b[1..], k - 1);
    }
  }

  lemma {:induction false} LexTotal(a: string, b: string)
    ensures LexLe(a, b) || LexLe(b, a)
    ensures LexLe(a, b) && LexLe(b, a) ==> a == b
  {
    if a == "" || b == "" {
    } else {
      LexTotal(a[1..], b[1..]);
      if a[0] == b[0] && a[1..] == b[1..] {
        assert a == [a[0]] + a[1..] && b == [b[0]] + b[1..];
      }
    }
  }

  lemma {:induction false} LexTransitive(a: string, b: string, c: string)
    requires LexLe(a, b) && LexLe(b, c)
    ensures LexLe(a, c)
  {
    if a == "" {
    } else if a[0] == b[0] == c[0] {
      LexTransitive(a[1..], b[1..], c[1..]);
    }
  }
}
