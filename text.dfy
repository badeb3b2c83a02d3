/** ASCII models of the two string methods the game uses to compare a guess
    with the secret word: `str.lower()` and `str.strip()`. */
module Text {

  /** Characters that Python's `str.isspace()` accepts in the ASCII range:
      tab, line feed, vertical tab, form feed, carriage return, the four
      information separators 0x1C..0x1F, and the space. */
  predicate IsSpace(c: char) {
    var n := c as int;
    n == 32 || 9 <= n <= 13 || 28 <= n <= 31
  }

  predicate AllSpace(s: string) {
    forall i :: 0 <= i < |s| ==> IsSpace(s[i])
  }

  lemma AllSpaceConcat(a: string, b: string)
    requires AllSpace(a) && AllSpace(b)
    ensures AllSpace(a + b)
  {
    forall i | 0 <= i < |a + b| ensures IsSpace((a + b)[i]) {
      if i < |a| { assert (a + b)[i] == a[i]; } else { assert (a + b)[i] == b[i - |a|]; }
    }
  }

  lemma SplitAt(s: string, k: nat)
    requires k <= |s|
    ensures s == s[..k] + s[k..]
  {
  }

  lemma Assoc(a: string, b: string, c: string)
    ensures a + (b + c) == a + b + c
  {
  }

  lemma Regroup(a: string, b: string, c: string, d: string, e: string)
    ensures a + (b + c + d) + e == (a + b) + c + (d + e)
  {
  }

  /** Neither end of `s` is whitespace: what `strip()` leaves behind. */
  predicate Trimmed(s: string) {
    s == [] || (!IsSpace(s[0]) && !IsSpace(s[|s| - 1]))
  }

  /** `c.lower()` on ASCII: upper-case letters map to lower case, every other
      character is left alone. */
  function LowerChar(c: char): (r: char)
    ensures 'A' <= c <= 'Z' ==> 'a' <= r <= 'z' && r as int - c as int == 32
    ensures !('A' <= c <= 'Z') ==> r == c
  {
    if 'A' <= c <= 'Z' then (c as int + 32) as char else c
  }

  /** `s.lower()`, character by character. */
  function Lower(s: string): string {
    seq(|s|, i requires 0 <= i < |s| => LowerChar(s[i]))
  }

  /** `s.lstrip()`: drops the whitespace prefix. */
  function TrimStart(s: string): string {
    if s != [] && IsSpace(s[0]) then TrimStart(s[1..]) else s
  }

  /** `s.rstrip()`: drops the whitespace suffix. */
  function TrimEnd(s: string): string {
    if s != [] && IsSpace(s[|s| - 1]) then TrimEnd(s[..|s| - 1]) else s
  }

  /** `s.strip()`: drops whitespace from both ends. */
  function Strip(s: string): string {
    TrimEnd(TrimStart(s))
  }

  /** `lstrip()` keeps a suffix of `s`, removes only whitespace, and leaves
      no whitespace at the front. */
  lemma {:induction false} TrimStartSplit(s: string)
    ensures |TrimStart(s)| <= |s| && TrimStart(s) == s[|s| - |TrimStart(s)|..]
    ensures AllSpace(s[..|s| - |TrimStart(s)|])
    ensures TrimStart(s) == [] || !IsSpace(TrimStart(s)[0])
  {
    if s != [] && IsSpace(s[0]) {
      TrimStartSplit(s[1..]);
      var r := TrimStart(s[1..]);
      assert s[|s| - |r|..] == s[1..][|s[1..]| - |r|..];
      var removed := s[..|s| - |r|];
      forall i | 0 <= i < |removed| ensures IsSpace(removed[i]) {
        if i > 0 {
          assert removed[i] == s[1..][..|s[1..]| - |r|][i - 1];
        }
      }
    }
  }

  /** `rstrip()` keeps a prefix of `s`, removes only whitespace, and leaves
      no whitespace at the back. */
  lemma {:induction false} TrimEndSplit(s: string)
    ensures |TrimEnd(s)| <= |s| && TrimEnd(s) == s[..|TrimEnd(s)|]
    ensures AllSpace(s[|TrimEnd(s)|..])
    ensures TrimEnd(s) == [] || !IsSpace(TrimEnd(s)[|TrimEnd(s)| - 1])
  {
    if s != [] && IsSpace(s[|s| - 1]) {
      var s' := s[..|s| - 1];
      TrimEndSplit(s');
      var r := TrimEnd(s');
      assert s[..|r|] == s'[..|r|];
      var removed := s[|r|..];
      forall i | 0 <= i < |removed| ensures IsSpace(removed[i]) {
        if i < |s| - 1 - |r| {
          assert removed[i] == s'[|r|..][i];
        }
      }
    }
  }

  /** `strip()` never lengthens a string and leaves no whitespace at either
      end. */
  lemma StripTrimmed(s: string)
    ensures |Strip(s)| <= |s|
    ensures Trimmed(Strip(s))
  {
    TrimStartSplit(s);
    TrimEndSplit(TrimStart(s));
    var t := TrimStart(s);
    var r := TrimEnd(t);
    if r != [] {
      assert r[0] == t[0];
    }
  }

  /** Whatever `strip()` removed was whitespace: `s` is the result wrapped in
      a whitespace prefix and a whitespace suffix. */
  lemma StripSplit(s: string) returns (p: string, q: string)
    ensures AllSpace(p) && AllSpace(q)
    ensures s == p + Strip(s) + q
  {
    var t := TrimStart(s);
    var r := TrimEnd(t);
    TrimStartSplit(s);
    TrimEndSplit(t);
    p := s[..|s| - |t|];
    q := t[|r|..];
    SplitAt(s, |s| - |t|);
    SplitAt(t, |r|);
    assert s == p + (r + q);
    Assoc(p, r, q);
  }

  lemma {:induction false} TrimStartOfSpaces(p: string, t: string)
    requires AllSpace(p)
    requires t == [] || !IsSpace(t[0])
    ensures TrimStart(p + t) == t
  {
    if p != [] {
      assert (p + t)[1..] == p[1..] + t;
      TrimStartOfSpaces(p[1..], t);
    } else {
      assert p + t == t;
    }
  }

  lemma {:induction false} TrimEndOfSpaces(t: string, q: string)
    requires AllSpace(q)
    requires t == [] || !IsSpace(t[|t| - 1])
    ensures TrimEnd(t + q) == t
  {
    if q != [] {
      assert (t + q)[..|t + q| - 1] == t + q[..|q| - 1];
      TrimEndOfSpaces(t, q[..|q| - 1]);
    } else {
      assert t + q == t;
    }
  }

  /** `strip()` is determined by its result: wrapping a trimmed string in
      any whitespace and stripping it gives the string back. */
  lemma StripOfPadded(p: string, t: string, q: string)
    requires AllSpace(p) && AllSpace(q) && Trimmed(t)
    ensures Strip(p + t + q) == t
  {
    if t == [] {
      assert p + t + q == p + q;
      AllSpaceConcat(p, q);
      TrimStartOfSpaces(p + q, []);
      assert (p + q) + [] == p + q;
      assert TrimEnd([]) == [];
    } else {
      assert p + t + q == p + (t + q);
      TrimStartOfSpaces(p, t + q);
      TrimEndOfSpaces(t, q);
    }
  }

  /** Stripping twice is stripping once. */
  lemma StripIdempotent(s: string)
    ensures Strip(Strip(s)) == Strip(s)
  {
    StripTrimmed(s);
    StripOfPadded([], Strip(s), []);
    assert [] + Strip(s) + [] == Strip(s);
  }

  /** Extra whitespace around a string never changes what `strip()` returns. */
  lemma StripIgnoresPadding(p: string, s: string, q: string)
    requires AllSpace(p) && AllSpace(q)
    ensures Strip(p + s + q) == Strip(s)
  {
    var p', q' := StripSplit(s);
    var t := Strip(s);
    Regroup(p, p', t, q', q);
    AllSpaceConcat(p, p');
    AllSpaceConcat(q', q);
    StripTrimmed(s);
    StripOfPadded(p + p', Strip(s), q' + q);
  }

  /** Lower-casing twice is lower-casing once. */
  lemma LowerIdempotent(s: string)
    ensures Lower(Lower(s)) == Lower(s)
  {
    assert forall i :: 0 <= i < |s| ==> LowerChar(LowerChar(s[i])) == LowerChar(s[i]);
  }

  lemma {:induction false} TrimStartLower(s: string)
    ensures TrimStart(Lower(s)) == Lower(TrimStart(s))
  {
    if s != [] {
      assert IsSpace(Lower(s)[0]) == IsSpace(s[0]);
      if IsSpace(s[0]) {
        assert Lower(s)[1..] == Lower(s[1..]);
        TrimStartLower(s[1..]);
      }
    }
  }

  lemma {:induction false} TrimEndLower(s: string)
    ensures TrimEnd(Lower(s)) == Lower(TrimEnd(s))
  {
    if s != [] {
      assert IsSpace(Lower(s)[|s| - 1]) == IsSpace(s[|s| - 1]);
      if IsSpace(s[|s| - 1]) {
        assert Lower(s)[..|s| - 1] == Lower(s[..|s| - 1]);
        TrimEndLower(s[..|s| - 1]);
      }
    }
  }

  /** Lower-casing never creates or removes whitespace, so stripping and
      lower-casing can be done in either order. */
  lemma StripLowerCommute(s: string)
    ensures Strip(Lower(s)) == Lower(Strip(s))
  {
    TrimStartLower(s);
    TrimEndLower(TrimStart(s));
  }

  /** Stripping and lower-casing an already lower-cased string gives what
      stripping and lower-casing the original gives. */
  lemma NormalizeIgnoresCase(s: string)
    ensures Lower(Strip(Lower(s))) == Lower(Strip(s))
  {
    StripLowerCommute(s);
    LowerIdempotent(Strip(s));
  }
}
