/** Whitespace trimming of city names, as `str::trim` does it. */
module Text {

  /** Unicode White_Space, the set that `char::is_whitespace` tests. */
  predicate IsWhitespace(c: char)
  {
    var n := c as int;
    (0x09 <= n <= 0x0D) || n == 0x20 || n == 0x85 || n == 0xA0 || n == 0x1680
    || (0x2000 <= n <= 0x200A) || n == 0x2028 || n == 0x2029 || n == 0x202F
    || n == 0x205F || n == 0x3000
  }

  predicate AllWhitespace(s: string)
  {
    forall k :: 0 <= k < |s| ==> IsWhitespace(s[k])
  }

  /** Drops the leading whitespace. */
  function TrimStart(s: string): (r: string)
    ensures |r| <= |s|
  {
    if s != [] && IsWhitespace(s[0]) then TrimStart(s[1..]) else s
  }

  /** Drops the trailing whitespace. */
  function TrimEnd(s: string): (r: string)
    ensures |r| <= |s|
  {
    if s != [] && IsWhitespace(s[|s| - 1]) then TrimEnd(s[..|s| - 1]) else s
  }

  /** `str::trim`. */
  function Trim(s: string): (r: string)
    ensures |r| <= |s|
  {
    TrimEnd(TrimStart(s))
  }

  /** What `TrimStart` leaves is a suffix of `s` that does not start with
      whitespace. */
  lemma {:induction false} TrimStartSuffix(s: string)
    ensures var r := TrimStart(s);
      |r| <= |s| && r == s[|s| - |r|..] && (r == [] || !IsWhitespace(r[0]))
  {
    if s != [] && IsWhitespace(s[0]) {
      var t := s[1..];
      TrimStartSuffix(t);
      assert s[|s| - |TrimStart(t)|..] == t[|t| - |TrimStart(t)|..];
    }
  }

  /** Everything `TrimStart` drops is whitespace. */
  lemma {:induction false} TrimStartDropsWhitespace(s: string, k: nat)
    requires k < |s| - |TrimStart(s)|
    ensures IsWhitespace(s[k])
  {
    if k > 0 {
      TrimStartDropsWhitespace(s[1..], k - 1);
    }
  }

  /** What `TrimStart` leaves is the longest suffix of `s` that does not
      start with whitespace. */
  lemma TrimStartSpec(s: string)
    ensures var r := TrimStart(s);
      && |r| <= |s| && r == s[|s| - |r|..]
      && (forall k :: 0 <= k < |s| - |r| ==> IsWhitespace(s[k]))
      && (r == [] || !IsWhitespace(r[0]))
  {
    TrimStartSuffix(s);
    forall k | 0 <= k < |s| - |TrimStart(s)|
      ensures IsWhitespace(s[k])
    {
      TrimStartDropsWhitespace(s, k);
    }
  }

  /** What `TrimEnd` leaves is the longest prefix of `s` that does not end
      with whitespace. */
  lemma {:induction false} TrimEndSpec(s: string)
    ensures var r := TrimEnd(s);
      && |r| <= |s| && r == s[..|r|]
      && (forall k :: |r| <= k < |s| ==> IsWhitespace(s[k]))
      && (r == [] || !IsWhitespace(r[|r| - 1]))
  {
    if s != [] && IsWhitespace(s[|s| - 1]) {
      var t := s[..|s| - 1];
      var r := TrimEnd(t);
      TrimEndSpec(t);
      assert TrimEnd(s) == r;
      forall k | |r| <= k < |s|
        ensures IsWhitespace(s[k])
      {
        if k < |t| {
          assert s[k] == t[k];
        }
      }
      assert s[..|r|] == t[..|r|];
    }
  }

  /** The trimmed name is the contiguous slice of `s` between its leading
      and its trailing whitespace; its ends are not whitespace; it is empty
      exactly when `s` is all whitespace. */
  lemma TrimSpec(s: string)
    ensures var r, i := Trim(s), |s| - |TrimStart(s)|;
      && 0 <= i && i + |r| <= |s| && r == s[i..i + |r|]
      && (forall k :: 0 <= k < i ==> IsWhitespace(s[k]))
      && (forall k :: i + |r| <= k < |s| ==> IsWhitespace(s[k]))
      && (r == [] || (!IsWhitespace(r[0]) && !IsWhitespace(r[|r| - 1])))
      && (r == [] <==> AllWhitespace(s))
  {
    TrimStartSpec(s);
    TrimEndSpec(TrimStart(s));
  }

  /** Trimming a trimmed name changes nothing. */
  lemma TrimIdempotent(s: string)
    ensures Trim(Trim(s)) == Trim(s)
  {
    var r := Trim(s);
    TrimSpec(s);
    if r != [] {
      assert TrimStart(r) == r;
      assert TrimEnd(r) == r;
    }
  }
}
