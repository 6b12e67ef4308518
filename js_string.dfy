/** The JavaScript string built-ins the request handlers use: `trim`,
    `toLowerCase` (on ASCII letters) and `includes`. */
module JsString {

  /** WhiteSpace and LineTerminator code points of ECMA-262: what
      `String.prototype.trim` removes and what the regular-expression class
      `\s` matches. */
  predicate IsSpace(c: char) {
    c == '\t' || c == '\n' || c == '\U{000B}' || c == '\U{000C}' || c == '\r' || c == ' '
    || c == '\U{00A0}' || c == '\U{1680}' || ('\U{2000}' <= c <= '\U{200A}')
    || c == '\U{2028}' || c == '\U{2029}' || c == '\U{202F}' || c == '\U{205F}'
    || c == '\U{3000}' || c == '\U{FEFF}'
  }

  /** Every character of `s` in positions `lo` up to `hi` is white space. */
  predicate SpacesBetween(s: string, lo: int, hi: int)
    requires 0 <= lo <= hi <= |s|
  {
    forall k :: lo <= k < hi ==> IsSpace(s[k])
  }

  /** No white space at either end. */
  predicate IsTrimmed(s: string) {
    s == [] || (!IsSpace(s[0]) && !IsSpace(s[|s| - 1]))
  }

  /** `r` is `s` with the white space at its two ends removed, `r` starting
      at position `i` of `s`: the reference definition of `trim`. */
  ghost predicate StripsTo(s: string, r: string, i: int) {
    0 <= i && i + |r| <= |s| && s[i..i + |r|] == r
    && SpacesBetween(s, 0, i) && SpacesBetween(s, i + |r|, |s|) && IsTrimmed(r)
  }

  function TrimStart(s: string): (r: string)
    ensures |r| <= |s| && r == s[|s| - |r|..]
    ensures SpacesBetween(s, 0, |s| - |r|)
    ensures r == [] || !IsSpace(r[0])
  {
    if |s| > 0 && IsSpace(s[0]) then TrimStart(s[1..]) else s
  }

  function TrimEnd(s: string): (r: string)
    ensures |r| <= |s| && r == s[..|r|]
    ensures SpacesBetween(s, |r|, |s|)
    ensures r == [] || !IsSpace(r[|r| - 1])
  {
    if |s| > 0 && IsSpace(s[|s| - 1]) then TrimEnd(s[..|s| - 1]) else s
  }

  /** `String.prototype.trim`. */
  function Trim(s: string): (r: string)
    ensures exists i :: StripsTo(s, r, i)
  {
    TrimStrips(s);
    TrimEnd(TrimStart(s))
  }

  lemma TrimStrips(s: string)
    ensures StripsTo(s, TrimEnd(TrimStart(s)), |s| - |TrimStart(s)|)
  {
    StripsOfParts(s, TrimStart(s), TrimEnd(TrimStart(s)));
  }

  /** Removing leading white space to get `t`, then trailing white space
      from `t` to get `r`, strips `s` to `r`. */
  lemma StripsOfParts(s: string, t: string, r: string)
    requires |t| <= |s| && t == s[|s| - |t|..] && SpacesBetween(s, 0, |s| - |t|)
    requires t == [] || !IsSpace(t[0])
    requires |r| <= |t| && r == t[..|r|] && SpacesBetween(t, |r|, |t|)
    requires r == [] || !IsSpace(r[|r| - 1])
    ensures StripsTo(s, r, |s| - |t|)
  {
    var i := |s| - |t|;
    assert s[i..i + |r|] == r;
    assert SpacesBetween(s, i + |r|, |s|) by {
      forall k | i + |r| <= k < |s| ensures IsSpace(s[k]) {
        assert s[k] == t[k - i];
      }
    }
    if r != [] {
      assert r[0] == t[0];
    }
  }

  lemma {:induction false} TrimStartSkips(s: string, i: nat)
    requires i <= |s| && SpacesBetween(s, 0, i) && (i == |s| || !IsSpace(s[i]))
    ensures TrimStart(s) == s[i..]
  {
    if i > 0 {
      var t := s[1..];
      assert SpacesBetween(t, 0, i - 1) by {
        forall k | 0 <= k < i - 1 ensures IsSpace(t[k]) { assert t[k] == s[k + 1]; }
      }
      TrimStartSkips(t, i - 1);
      assert t[i - 1..] == s[i..];
    }
  }

  lemma {:induction false} TrimEndSkips(s: string, j: nat)
    requires j <= |s| && SpacesBetween(s, j, |s|) && (j == 0 || !IsSpace(s[j - 1]))
    ensures TrimEnd(s) == s[..j]
  {
    if j < |s| {
      var t := s[..|s| - 1];
      assert SpacesBetween(t, j, |t|) by {
        forall k | j <= k < |t| ensures IsSpace(t[k]) { assert t[k] == s[k]; }
      }
      TrimEndSkips(t, j);
      assert t[..j] == s[..j];
    } else {
      assert s[..j] == s;
    }
  }

  /** Any way of writing `s` as white space, a trimmed core and white space
      gives the core that `Trim` computes: `Trim` agrees with `StripsTo`. */
  lemma TrimUnique(s: string, r: string, i: int)
    requires StripsTo(s, r, i)
    ensures Trim(s) == r
  {
    if r == [] {
      TrimStartSkips(s, |s|);
    } else {
      assert s[i] == r[0];
      TrimStartSkips(s, i);
      var t := s[i..];
      assert t[|r| - 1] == r[|r| - 1];
      assert SpacesBetween(t, |r|, |t|) by {
        forall k | |r| <= k < |t| ensures IsSpace(t[k]) { assert t[k] == s[k + i]; }
      }
      TrimEndSkips(t, |r|);
      assert t[..|r|] == r;
    }
  }

  lemma TrimOfTrimmed(s: string)
    requires IsTrimmed(s)
    ensures Trim(s) == s
  {
    assert s[0..|s|] == s;
    TrimUnique(s, s, 0);
  }

  /** `toLowerCase` on one character, restricted to ASCII letters. */
  function LowerChar(c: char): char {
    if 'A' <= c <= 'Z' then (c as int + 32) as char else c
  }

  /** `String.prototype.toLowerCase`, lowering ASCII letters only. */
  function Lower(s: string): (r: string)
    ensures |r| == |s|
  {
    seq(|s|, k requires 0 <= k < |s| => LowerChar(s[k]))
  }

  lemma LowerIdempotent(s: string)
    ensures Lower(Lower(s)) == Lower(s)
  {
  }

  /** Lowering keeps the two ends free of white space. */
  lemma LowerKeepsTrimmed(s: string)
    requires IsTrimmed(s)
    ensures IsTrimmed(Lower(s))
  {
    if s != [] {
      assert Lower(s)[0] == LowerChar(s[0]);
      assert Lower(s)[|s| - 1] == LowerChar(s[|s| - 1]);
    }
  }

  /** `s` holds `q` as a contiguous piece starting at position `i`. */
  ghost predicate OccursAt(s: string, q: string, i: int) {
    0 <= i && i + |q| <= |s| && s[i..i + |q|] == q
  }

  /** `String.prototype.includes`. */
  function Includes(s: string, q: string): (b: bool)
    ensures b <==> exists i :: OccursAt(s, q, i)
  {
    if q <= s then
      assert OccursAt(s, q, 0);
      true
    else if s == [] then false
    else
      OccursShift(s, q);
      Includes(s[1..], q)
  }

  /** When `q` is not a prefix of `s`, it occurs in `s` exactly when it
      occurs in the tail of `s`. */
  lemma OccursShift(s: string, q: string)
    requires s != [] && !(q <= s)
    ensures (exists i :: OccursAt(s, q, i)) <==> (exists i :: OccursAt(s[1..], q, i))
  {
    forall i | OccursAt(s[1..], q, i) ensures OccursAt(s, q, i + 1) {
      assert s[i + 1..i + 1 + |q|] == s[1..][i..i + |q|];
    }
    forall i | OccursAt(s, q, i) ensures i > 0 && OccursAt(s[1..], q, i - 1) {
      assert s[1..][i - 1..i - 1 + |q|] == s[i..i + |q|];
    }
  }
}
