/** String handling used by every form handler: the ECMAScript `String.prototype.trim`
    that the handlers apply to each input field before validating it. */
module Text {

  /** ECMAScript WhiteSpace and LineTerminator code points, the set `trim` strips. */
  predicate IsWhitespace(c: char)
  {
    || c == '\t' || c == '\n' || c == '\U{000B}' || c == '\U{000C}' || c == '\r'
    || c == ' ' || c == '\U{00A0}' || c == '\U{1680}'
    || ('\U{2000}' <= c <= '\U{200A}')
    || c == '\U{2028}' || c == '\U{2029}' || c == '\U{202F}' || c == '\U{205F}'
    || c == '\U{3000}' || c == '\U{FEFF}'
  }

  /** Among ASCII characters, `trim` strips exactly space and tab through
      carriage return. */
  lemma AsciiWhitespace(c: char)
    requires c < '\U{0080}'
    ensures IsWhitespace(c) <==> c == ' ' || '\t' <= c <= '\r'
  {
  }

  /** True when `trim` reduces `s` to the empty string (the handlers' "blank" test). */
  ghost predicate AllWhitespace(s: string)
  {
    forall i :: 0 <= i < |s| ==> IsWhitespace(s[i])
  }

  /** Neither end of `s` is whitespace, so `trim` has nothing to drop. */
  predicate Untrimmable(s: string)
  {
    s == [] || (!IsWhitespace(s[0]) && !IsWhitespace(s[|s| - 1]))
  }

  /** Drops the leading whitespace: the result is the longest suffix of `s`
      that does not start with whitespace. */
  function TrimStart(s: string): (r: string)
    ensures |r| <= |s| && r == s[|s| - |r|..]
    ensures forall i :: 0 <= i < |s| - |r| ==> IsWhitespace(s[i])
    ensures r == [] || !IsWhitespace(r[0])
  {
    if s != [] && IsWhitespace(s[0]) then TrimStart(s[1..]) else s
  }

  /** Drops the trailing whitespace: the result is the longest prefix of `s`
      that does not end with whitespace. */
  function TrimEnd(s: string): (r: string)
    ensures |r| <= |s| && r == s[..|r|]
    ensures forall i :: |r| <= i < |s| ==> IsWhitespace(s[i])
    ensures r == [] || !IsWhitespace(r[|r| - 1])
  {
    if s != [] && IsWhitespace(s[|s| - 1]) then TrimEnd(s[..|s| - 1]) else s
  }

  /** Number of whitespace characters `trim` drops from the front of `s`. */
  function Leading(s: string): (n: nat)
    ensures n <= |s|
  {
    |s| - |TrimStart(s)|
  }

  /** `s.trim()`: strips whitespace from both ends. The facts about it are
      the lemmas below, so that code calling it does not carry them along. */
  function Trim(s: string): (r: string)
    ensures |r| <= |s|
  {
    if s == [] then s
    else if IsWhitespace(s[0]) then Trim(s[1..])
    else if IsWhitespace(s[|s| - 1]) then Trim(s[..|s| - 1])
    else s
  }

  /** `trim` is stripping the front and then the back. */
  lemma {:induction false} TrimFromEnds(s: string)
    ensures Trim(s) == TrimEnd(TrimStart(s))
  {
    if s == [] {
    } else if IsWhitespace(s[0]) {
      TrimFromEnds(s[1..]);
    } else if IsWhitespace(s[|s| - 1]) {
      var p := s[..|s| - 1];
      assert |s| >= 2 && p[0] == s[0];
      TrimFromEnds(p);
      assert TrimStart(p) == p && TrimStart(s) == s;
    }
  }

  /** What `trim` returns is the slice of `s` that starts after its leading
      whitespace. */
  lemma TrimSlice(s: string)
    ensures Leading(s) + |Trim(s)| <= |s|
    ensures forall k :: 0 <= k < |Trim(s)| ==> Trim(s)[k] == s[Leading(s) + k]
  {
    TrimFromEnds(s);
    TrimIsSlice(s);
  }

  /** Only whitespace lies outside that slice. */
  lemma TrimOutside(s: string)
    ensures Leading(s) + |Trim(s)| <= |s|
    ensures AllWhitespace(s[..Leading(s)]) && AllWhitespace(s[Leading(s) + |Trim(s)|..])
  {
    TrimFromEnds(s);
    TrimIsSlice(s);
    TrimDropsWhitespace(s);
  }

  /** And the slice has no whitespace at either end. */
  lemma TrimUntrimmable(s: string)
    ensures Untrimmable(Trim(s))
  {
    TrimFromEnds(s);
    TrimEnds(s);
  }

  lemma TrimIsSlice(s: string)
    ensures var r := TrimEnd(TrimStart(s));
      && Leading(s) + |r| <= |s|
      && forall k :: 0 <= k < |r| ==> r[k] == s[Leading(s) + k]
  {
    var t := TrimStart(s);
    PrefixOfSuffix(s, Leading(s), t, TrimEnd(t));
  }

  lemma PrefixOfSuffix(s: string, a: nat, t: string, r: string)
    requires a + |t| == |s| && t == s[a..]
    requires |r| <= |t| && r == t[..|r|]
    ensures forall k :: 0 <= k < |r| ==> r[k] == s[a + k]
  {
    forall k | 0 <= k < |r| ensures r[k] == s[a + k] {
      assert r[k] == t[k];
    }
  }

  lemma TrimDropsWhitespace(s: string)
    ensures var r := TrimEnd(TrimStart(s));
      AllWhitespace(s[..Leading(s)]) && AllWhitespace(s[Leading(s) + |r|..])
  {
    LeadingIsWhitespace(s);
    TrailingIsWhitespace(s);
  }

  lemma LeadingIsWhitespace(s: string)
    ensures AllWhitespace(s[..Leading(s)])
  {
    var a := Leading(s);
    var head := s[..a];
    forall i | 0 <= i < |head| ensures IsWhitespace(head[i]) {
      assert head[i] == s[i];
    }
  }

  lemma TrailingIsWhitespace(s: string)
    ensures var r := TrimEnd(TrimStart(s));
      AllWhitespace(s[Leading(s) + |r|..])
  {
    var t := TrimStart(s);
    WhitespaceAfter(s, Leading(s), t, |TrimEnd(t)|);
  }

  lemma WhitespaceAfter(s: string, a: nat, t: string, n: nat)
    requires a + |t| == |s| && t == s[a..] && n <= |t|
    requires forall i :: n <= i < |t| ==> IsWhitespace(t[i])
    ensures AllWhitespace(s[a + n..])
  {
    var tail := s[a + n..];
    forall i | 0 <= i < |tail| ensures IsWhitespace(tail[i]) {
      assert tail[i] == t[n + i];
    }
  }

  lemma TrimBlank(s: string)
    ensures TrimEnd(TrimStart(s)) == [] <==> AllWhitespace(s)
  {
    var t := TrimStart(s);
    if TrimEnd(t) == [] {
      assert t == [];
    } else {
      assert s[Leading(s)] == t[0];
    }
  }

  lemma TrimEnds(s: string)
    ensures Untrimmable(TrimEnd(TrimStart(s)))
  {
    var t := TrimStart(s);
    var r := TrimEnd(t);
    if r != [] {
      assert r[0] == t[0];
    }
  }

  /** Blank input, in the handlers' sense, is input made only of whitespace. */
  lemma TrimEmptyIff(s: string)
    ensures Trim(s) == [] <==> AllWhitespace(s)
  {
    TrimFromEnds(s);
    TrimBlank(s);
  }

  /** A string with no whitespace at either end is left alone by `trim`. */
  lemma TrimOfUntrimmable(s: string)
    requires Untrimmable(s)
    ensures Trim(s) == s
  {
  }

  /** Trimming twice is trimming once. */
  lemma TrimIdempotent(s: string)
    ensures Trim(Trim(s)) == Trim(s)
  {
    TrimUntrimmable(s);
    TrimOfUntrimmable(Trim(s));
  }
}
