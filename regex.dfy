/**
 * The credential shape matcher of internal/regex/regex.go. Each of the seven
 * patterns is anchored at both ends (RE2's `^` and `$` without the multi-line
 * flag mean start and end of text), so each predicate below states the whole
 * language of its pattern, written to follow the pattern's own structure.
 * Characters of a Go string are runes; here they are Dafny `char`s.
 */
module Regex {
  import opened Wrappers

  /** `[A-Za-z0-9]` */
  predicate IsAlnum(c: char)
  {
    'A' <= c <= 'Z' || 'a' <= c <= 'z' || '0' <= c <= '9'
  }

  /** `[a-f0-9]` */
  predicate IsLowerHex(c: char)
  {
    'a' <= c <= 'f' || '0' <= c <= '9'
  }

  predicate AllAlnum(s: string)
  {
    forall i :: 0 <= i < |s| ==> IsAlnum(s[i])
  }

  predicate AllLowerHex(s: string)
  {
    forall i :: 0 <= i < |s| ==> IsLowerHex(s[i])
  }

  /** Every character matches RE2's `.`, which excludes only the newline. */
  predicate NoNewline(s: string)
  {
    forall i :: 0 <= i < |s| ==> s[i] != '\n'
  }

  /** The pattern texts compiled by NewMatcher, in the order it compiles them. */
  const PatternSources: seq<string> := [
    "^[A-Za-z0-9]{10,14}\\_[A-Za-z0-9]{22}$",
    "^[A-Za-z0-9]{22}$",
    "^[a-f0-9]{8}\\-[a-f0-9]{4}\\-[a-f0-9]{4}\\-[a-f0-9]{4}\\-[a-f0-9]{12}$",
    "^[a-f0-9]{32}$",
    "^[a-zA-Z0-9]{16}$",
    "^[a-zA-Z0-9]+$",
    "^v1\\.0.+$"
  ]

  /** Literal prefix of the Cloudflare user service key pattern (the `\.` is a literal dot). */
  const ServiceKeyPrefix: string := "v1.0"

  /** The compiled matcher. Its patterns are fixed, so the value carries no data. */
  datatype Matcher = Matcher {

    /** `^[A-Za-z0-9]{10,14}\_[A-Za-z0-9]{22}$`: k alphanumerics, `_`, 22 alphanumerics. */
    predicate GodaddyKey(s: string)
    {
      exists k | 10 <= k <= 14 ::
        k + 1 + 22 == |s| && AllAlnum(s[..k]) && s[k] == '_' && AllAlnum(s[k + 1..])
    }

    /** `^[A-Za-z0-9]{22}$` */
    predicate GodaddySecret(s: string)
    {
      |s| == 22 && AllAlnum(s)
    }

    /** `^[a-f0-9]{8}\-[a-f0-9]{4}\-[a-f0-9]{4}\-[a-f0-9]{4}\-[a-f0-9]{12}$` */
    predicate DuckDNSToken(s: string)
    {
      && |s| == 36
      && AllLowerHex(s[0..8]) && s[8] == '-'
      && AllLowerHex(s[9..13]) && s[13] == '-'
      && AllLowerHex(s[14..18]) && s[18] == '-'
      && AllLowerHex(s[19..23]) && s[23] == '-'
      && AllLowerHex(s[24..36])
    }

    /** `^[a-f0-9]{32}$` */
    predicate NamecheapPassword(s: string)
    {
      |s| == 32 && AllLowerHex(s)
    }

    /** `^[a-zA-Z0-9]{16}$` */
    predicate DreamhostKey(s: string)
    {
      |s| == 16 && AllAlnum(s)
    }

    /** `^[a-zA-Z0-9]+$` */
    predicate CloudflareKey(s: string)
    {
      |s| >= 1 && AllAlnum(s)
    }

    /** `^v1\.0.+$`: the prefix, then one or more characters other than a newline. */
    predicate CloudflareUserServiceKey(s: string)
    {
      |s| >= |ServiceKeyPrefix| + 1 && s[..|ServiceKeyPrefix|] == ServiceKeyPrefix
      && NoNewline(s[|ServiceKeyPrefix|..])
    }
  }

  /**
   * The first compile error among `sources`, tried in order, with its index.
   * `compile(p)` is the error regexp.Compile reports for pattern text `p`, if any.
   */
  function FirstCompileError<E>(sources: seq<string>, compile: string -> Option<E>): (r: Option<(nat, E)>)
    ensures r.None? <==> forall i :: 0 <= i < |sources| ==> compile(sources[i]).None?
    ensures r.Some? ==>
      && r.value.0 < |sources|
      && compile(sources[r.value.0]) == Some(r.value.1)
      && forall j :: 0 <= j < r.value.0 ==> compile(sources[j]).None?
  {
    if |sources| == 0 then None
    else match compile(sources[0])
      case Some(e) => Some((0, e))
      case None =>
        match FirstCompileError(sources[1..], compile)
        case None => None
        case Some((i, e)) => Some((i + 1, e))
  }

  /**
   * NewMatcher: compiles the seven patterns in order and returns at the first
   * compile error; a matcher exists only when all seven compiled.
   */
  function NewMatcher<E>(compile: string -> Option<E>): (r: Result<Matcher, E>)
    ensures r.Success? <==> forall i :: 0 <= i < |PatternSources| ==> compile(PatternSources[i]).None?
    ensures r.Failure? ==>
      exists i :: 0 <= i < |PatternSources| && compile(PatternSources[i]) == Some(r.error)
        && forall j :: 0 <= j < i ==> compile(PatternSources[j]).None?
  {
    match FirstCompileError(PatternSources, compile)
    case Some((_, e)) => Failure(e)
    case None => Success(Matcher)
  }

  // ---------------------------------------------------------------------------
  // GodaddyKey: the split into key part and secret part

  /** Generator direction: any 10-14 alphanumerics, `_`, and a Godaddy secret form a key. */
  lemma GodaddyKeyFromParts(m: Matcher, a: string, b: string)
    requires 10 <= |a| <= 14 && AllAlnum(a) && m.GodaddySecret(b)
    ensures m.GodaddyKey(a + "_" + b)
  {
    var s := a + "_" + b;
    assert s[..|a|] == a && s[|a|] == '_' && s[|a| + 1..] == b;
  }

  /** Parsing direction: an accepted key splits at index |s| - 23 into the two parts. */
  lemma GodaddyKeyToParts(m: Matcher, s: string)
    requires m.GodaddyKey(s)
    ensures 33 <= |s| <= 37
    ensures s == s[..|s| - 23] + "_" + s[|s| - 22..]
    ensures AllAlnum(s[..|s| - 23]) && m.GodaddySecret(s[|s| - 22..])
  {
    var k :| 10 <= k <= 14 && k + 1 + 22 == |s| && AllAlnum(s[..k]) && s[k] == '_' && AllAlnum(s[k + 1..]);
    assert s == s[..k] + [s[k]] + s[k + 1..];
  }

  /** The split is unique, because `_` is not alphanumeric. */
  lemma {:induction false} GodaddyKeySplitUnique(m: Matcher, a: string, b: string, a': string, b': string)
    requires a + "_" + b == a' + "_" + b'
    requires 10 <= |a| <= 14 && AllAlnum(a) && m.GodaddySecret(b)
    requires 10 <= |a'| <= 14 && AllAlnum(a') && m.GodaddySecret(b')
    ensures a == a' && b == b'
  {
    var s := a + "_" + b;
    assert |a| == |s| - 23 == |a'|;
    assert a == s[..|a|] == a';
    assert b == s[|a| + 1..] == b';
  }

  /** A key is rejected once any character is appended: the secret part would be 23 long. */
  lemma GodaddyKeyNotExtensible(m: Matcher, s: string, c: char)
    requires m.GodaddyKey(s)
    ensures !m.GodaddyKey(s + [c])
  {
    GodaddyKeyToParts(m, s);
    var t := s + [c];
    if m.GodaddyKey(t) {
      // t's underscore would sit at |s| - 22, the first character of s's secret part
      GodaddyKeyToParts(m, t);
      assert false;
    }
  }

  // ---------------------------------------------------------------------------
  // DuckDNSToken: the UUID shape

  /** Index form: 36 characters, `-` exactly at 8, 13, 18 and 23, lower-case hex elsewhere. */
  predicate IsDashPosition(i: int)
  {
    i == 8 || i == 13 || i == 18 || i == 23
  }

  lemma DuckDNSTokenByIndex(m: Matcher, s: string)
    ensures m.DuckDNSToken(s) <==>
      |s| == 36 && forall i :: 0 <= i < 36 ==> if IsDashPosition(i) then s[i] == '-' else IsLowerHex(s[i])
  {
    if |s| == 36 && forall i :: 0 <= i < 36 ==> if IsDashPosition(i) then s[i] == '-' else IsLowerHex(s[i]) {
      assert AllLowerHex(s[0..8]) by {
        forall j | 0 <= j < 8 ensures IsLowerHex(s[0..8][j]) { assert !IsDashPosition(j); }
      }
      assert AllLowerHex(s[9..13]) by {
        forall j | 0 <= j < 4 ensures IsLowerHex(s[9..13][j]) { assert !IsDashPosition(9 + j); }
      }
      assert AllLowerHex(s[14..18]) by {
        forall j | 0 <= j < 4 ensures IsLowerHex(s[14..18][j]) { assert !IsDashPosition(14 + j); }
      }
      assert AllLowerHex(s[19..23]) by {
        forall j | 0 <= j < 4 ensures IsLowerHex(s[19..23][j]) { assert !IsDashPosition(19 + j); }
      }
      assert AllLowerHex(s[24..36]) by {
        forall j | 0 <= j < 12 ensures IsLowerHex(s[24..36][j]) { assert !IsDashPosition(24 + j); }
      }
    }
    if m.DuckDNSToken(s) {
      forall i | 0 <= i < 36 ensures if IsDashPosition(i) then s[i] == '-' else IsLowerHex(s[i]) {
        if i < 8 { assert s[i] == s[0..8][i]; }
        else if 8 < i < 13 { assert s[i] == s[9..13][i - 9]; }
        else if 13 < i < 18 { assert s[i] == s[14..18][i - 14]; }
        else if 18 < i < 23 { assert s[i] == s[19..23][i - 19]; }
        else if 23 < i { assert s[i] == s[24..36][i - 24]; }
      }
    }
  }

  /** Upper-case hex is rejected: a token never holds an upper-case letter. */
  lemma DuckDNSTokenRejectsUpperCase(m: Matcher, s: string, i: int)
    requires 0 <= i < |s| && 'A' <= s[i] <= 'Z'
    ensures !m.DuckDNSToken(s)
  {
    DuckDNSTokenByIndex(m, s);
  }

  /**
   * Group form: five dash-free lower-case hex groups joined by `-` are accepted
   * exactly when the groups have the UUID lengths 8, 4, 4, 4 and 12.
   */
  lemma DuckDNSTokenGroups(m: Matcher, a: string, b: string, c: string, d: string, e: string)
    requires AllLowerHex(a) && AllLowerHex(b) && AllLowerHex(c) && AllLowerHex(d) && AllLowerHex(e)
    ensures m.DuckDNSToken(a + "-" + b + "-" + c + "-" + d + "-" + e) <==>
      |a| == 8 && |b| == 4 && |c| == 4 && |d| == 4 && |e| == 12
  {
    var s := a + "-" + b + "-" + c + "-" + d + "-" + e;
    var p1, p2, p3, p4 := |a|, |a| + 1 + |b|, |a| + 1 + |b| + 1 + |c|, |a| + 1 + |b| + 1 + |c| + 1 + |d|;
    assert |s| == p4 + 1 + |e|;
    // the dashes of s sit exactly at p1 .. p4; every other character is a group character
    assert s[p1] == '-' && s[p2] == '-' && s[p3] == '-' && s[p4] == '-';
    forall i | 0 <= i < |s| && i != p1 && i != p2 && i != p3 && i != p4
      ensures IsLowerHex(s[i])
    {
      if i < p1 { assert s[i] == a[i]; }
      else if i < p2 { assert s[i] == b[i - p1 - 1]; }
      else if i < p3 { assert s[i] == c[i - p2 - 1]; }
      else if i < p4 { assert s[i] == d[i - p3 - 1]; }
      else { assert s[i] == e[i - p4 - 1]; }
    }
    DuckDNSTokenByIndex(m, s);
    if m.DuckDNSToken(s) {
      // a dash is not hex, so each group ends exactly at the next dash position
      assert p1 == 8 && p2 == 13 && p3 == 18 && p4 == 23;
    }
  }

  // ---------------------------------------------------------------------------
  // CloudflareUserServiceKey: literal prefix, then at least one non-newline

  /** A key is exactly the literal prefix followed by a non-empty, newline-free rest. */
  lemma ServiceKeyByPrefix(m: Matcher, rest: string)
    ensures m.CloudflareUserServiceKey(ServiceKeyPrefix + rest) <==> |rest| >= 1 && NoNewline(rest)
  {
    var s := ServiceKeyPrefix + rest;
    assert s[..|ServiceKeyPrefix|] == ServiceKeyPrefix && s[|ServiceKeyPrefix|..] == rest;
  }

  /** Every key starts with the literal prefix; in particular the dot is not a wildcard. */
  lemma ServiceKeyHasPrefix(m: Matcher, s: string)
    requires m.CloudflareUserServiceKey(s)
    ensures |s| >= 5 && s[0] == 'v' && s[1] == '1' && s[2] == '.' && s[3] == '0'
  {
    assert s[2] == s[..4][2];
  }

  /** Concrete edge cases: bare prefix, non-literal dot, and a newline after the prefix. */
  lemma ServiceKeyEdgeCases(m: Matcher)
    ensures !m.CloudflareUserServiceKey("v1.0")
    ensures !m.CloudflareUserServiceKey("v1x0abc")
    ensures !m.CloudflareUserServiceKey("v1.0ab\ncd")
    ensures m.CloudflareUserServiceKey("v1.0x")
  {
    assert "v1x0abc"[..4] != ServiceKeyPrefix by { assert "v1x0abc"[..4][2] == 'x'; }
    assert "v1.0ab\ncd"[4..][2] == '\n';
    assert "v1.0x"[..4] == ServiceKeyPrefix;
  }

  // ---------------------------------------------------------------------------
  // Full-string matching and the relations between the languages

  /**
   * The fixed-length patterns are anchored at both ends: adding a character in
   * front or behind an accepted string makes it rejected.
   */
  lemma FixedLengthFullMatch(m: Matcher, s: string, c: char)
    ensures m.GodaddySecret(s) ==> !m.GodaddySecret(s + [c]) && !m.GodaddySecret([c] + s)
    ensures m.DuckDNSToken(s) ==> !m.DuckDNSToken(s + [c]) && !m.DuckDNSToken([c] + s)
    ensures m.NamecheapPassword(s) ==> !m.NamecheapPassword(s + [c]) && !m.NamecheapPassword([c] + s)
    ensures m.DreamhostKey(s) ==> !m.DreamhostKey(s + [c]) && !m.DreamhostKey([c] + s)
  {
  }

  /**
   * The permissive Cloudflare key: it rejects only the empty string and
   * non-alphanumerics, so it is closed under concatenation and contains every
   * Godaddy secret, Namecheap password and Dreamhost key, but no DuckDNS token.
   */
  lemma {:induction false} CloudflareKeyLanguage(m: Matcher, s: string, t: string)
    ensures !m.CloudflareKey("")
    ensures m.CloudflareKey(s) && m.CloudflareKey(t) ==> m.CloudflareKey(s + t)
    ensures m.GodaddySecret(s) || m.DreamhostKey(s) || m.NamecheapPassword(s) ==> m.CloudflareKey(s)
    ensures m.DuckDNSToken(s) ==> !m.CloudflareKey(s)
  {
    if m.CloudflareKey(s) && m.CloudflareKey(t) {
      forall i | 0 <= i < |s + t| ensures IsAlnum((s + t)[i]) {
        if i < |s| { assert (s + t)[i] == s[i]; } else { assert (s + t)[i] == t[i - |s|]; }
      }
    }
    if m.DuckDNSToken(s) {
      assert !IsAlnum(s[8]);
    }
  }
}
