/** The CORS origin callback of the server (index.js lines 12-24). */
module Cors {
  import opened Records
  import opened Text

  /** The allow-list exactly as the server writes it. */
  const AllowedOrigins: seq<string> :=
    ["http://localhost:3000", "https://*.github.dev", "https://*.app.github.dev"]

  /** When the first character of `pat` does not occur in `pre`, the first
      occurrence of `pat` in `pre + pat + post` is right after `pre`. */
  lemma FirstIndexAfter(pre: string, pat: string, post: string)
    requires |pat| > 0 && pat[0] !in pre
    ensures FirstIndex(pre + pat + post, pat) == Some(|pre|)
  {
    var s := pre + pat + post;
    assert s[|pre|..|pre| + |pat|] == pat;
    assert OccursAt(s, pat, |pre|);
    forall j: nat | j < |pre| ensures !OccursAt(s, pat, j) {
      assert s[j] == pre[j];
      if j + |pat| <= |s| {
        assert s[j..j + |pat|][0] == s[j];
      }
    }
  }

  /** `String.prototype.replace` with a string pattern: only the first
      occurrence of `pat` is replaced; without one, `s` is returned. */
  function ReplaceFirst(s: string, pat: string, rep: string): string {
    match FirstIndex(s, pat)
    case None => s
    case Some(i) => s[..i] + rep + s[i + |pat|..]
  }

  /** `allowedOrigins.some(allowed => origin.includes(allowed.replace('*.', '')))`. */
  predicate SomeIncluded(origin: string, allowed: seq<string>)
    decreases |allowed|
  {
    |allowed| > 0 &&
    (Contains(origin, ReplaceFirst(allowed[0], "*.", "")) || SomeIncluded(origin, allowed[1..]))
  }

  /** The origin callback: a request whose origin fails `!origin` (no
      Origin header, or an empty one) is allowed, any other only when the
      allow-list test passes. */
  predicate AllowOrigin(origin: Option<string>) {
    !Present(origin) || SomeIncluded(origin.value, AllowedOrigins)
  }

  /** Replacing the first `*.` in `s == pre + "*." + post` leaves
      `pre + post` when `pre` has no `*`. */
  lemma ReplaceWildcard(s: string, pre: string, post: string, r: string)
    requires '*' !in pre && s == pre + "*." + post && r == pre + post
    ensures ReplaceFirst(s, "*.", "") == r
  {
    FirstIndexAfter(pre, "*.", post);
    assert s[..|pre|] == pre;
    assert s[|pre| + 2..] == post;
  }

  /** The first entry has no `*.`, so `replace` leaves it as it is. */
  lemma StrippedLocalhost()
    ensures ReplaceFirst(AllowedOrigins[0], "*.", "") == "http://localhost:3000"
  {
    var s := AllowedOrigins[0];
    assert '*' !in s;
    forall i: nat | i + 2 <= |s| ensures !OccursAt(s, "*.", i) {
      assert s[i..i + 2][0] == s[i];
    }
  }

  /** The second entry becomes the literal `https://github.dev`. */
  lemma StrippedGithubDev()
    ensures ReplaceFirst(AllowedOrigins[1], "*.", "") == "https://github.dev"
  {
    ReplaceWildcard(AllowedOrigins[1], "https://", "github.dev", "https://github.dev");
  }

  /** The third entry becomes the literal `https://app.github.dev`. */
  lemma StrippedAppGithubDev()
    ensures ReplaceFirst(AllowedOrigins[2], "*.", "") == "https://app.github.dev"
  {
    ReplaceWildcard(AllowedOrigins[2], "https://", "app.github.dev", "https://app.github.dev");
  }

  /** The origin test is a plain substring test against three literals:
      the `*` in the allow-list is not a wildcard. */
  lemma AllowOriginIsSubstringTest(origin: Option<string>)
    ensures AllowOrigin(origin) <==>
      !Present(origin) ||
      Contains(origin.value, "http://localhost:3000") ||
      Contains(origin.value, "https://github.dev") ||
      Contains(origin.value, "https://app.github.dev")
  {
    StrippedLocalhost();
    StrippedGithubDev();
    StrippedAppGithubDev();
    if Present(origin) {
      SomeIncludedThree(origin.value, AllowedOrigins, "http://localhost:3000", "https://github.dev",
                        "https://app.github.dev");
    }
  }

  /** The `some` over a three-entry list, unrolled. */
  lemma SomeIncludedThree(o: string, allowed: seq<string>, e0: string, e1: string, e2: string)
    requires |allowed| == 3
    requires ReplaceFirst(allowed[0], "*.", "") == e0
    requires ReplaceFirst(allowed[1], "*.", "") == e1
    requires ReplaceFirst(allowed[2], "*.", "") == e2
    ensures SomeIncluded(o, allowed) <==> Contains(o, e0) || Contains(o, e1) || Contains(o, e2)
  {
    var rest := allowed[1..];
    assert SomeIncluded(o, allowed) == (Contains(o, e0) || SomeIncluded(o, rest));
    assert SomeIncluded(o, rest) == (Contains(o, e1) || SomeIncluded(o, rest[1..]));
    assert SomeIncluded(o, rest[1..]) == (Contains(o, e2) || SomeIncluded(o, rest[1..][1..]));
    assert rest[1..][1..] == [];
  }
}

/** The allow-list as its `*` entries evidently mean it, beside the
    counterexamples that separate it from the test as written. */
module CorsIntended {
  import opened Records
  import opened Text
  import opened Cors

  /** `origin` starts with `pre`, ends with `post`, and has at least one
      character between them. */
  predicate Around(origin: string, pre: string, post: string) {
    |origin| > |pre| + |post| && origin[..|pre|] == pre && origin[|origin| - |post|..] == post
  }

  /** One allow-list entry: `*.` stands for a non-empty subdomain sub
      followed by its dot; an entry without it keeps the substring test. */
  predicate EntryMatches(origin: string, entry: string) {
    match FirstIndex(entry, "*.")
    case None => Contains(origin, entry)
    case Some(i) => Around(origin, entry[..i], entry[i + 1..])
  }

  predicate SomeMatches(origin: string, allowed: seq<string>)
    decreases |allowed|
  {
    |allowed| > 0 && (EntryMatches(origin, allowed[0]) || SomeMatches(origin, allowed[1..]))
  }

  /** The corrected origin callback. */
  predicate AllowOriginIntended(origin: Option<string>) {
    !Present(origin) || SomeMatches(origin.value, AllowedOrigins)
  }

  /** The corrected test in plain terms: the empty origin, the localhost
      substring test, or an https origin under `github.dev` or
      `app.github.dev` with a non-empty subdomain. */
  lemma IntendedIsSubdomainTest(o: string)
    ensures AllowOriginIntended(Some(o)) <==>
      o == "" ||
      Contains(o, "http://localhost:3000") ||
      Around(o, "https://", ".github.dev") ||
      Around(o, "https://", ".app.github.dev")
  {
    EntryLocalhost(o);
    EntryGithubDev(o);
    EntryAppGithubDev(o);
    SomeMatchesThree(o, AllowedOrigins);
  }

  lemma EntryLocalhost(o: string)
    ensures EntryMatches(o, AllowedOrigins[0]) <==> Contains(o, "http://localhost:3000")
  {
    PlainEntry(o, AllowedOrigins[0]);
  }

  lemma EntryGithubDev(o: string)
    ensures EntryMatches(o, AllowedOrigins[1]) <==> Around(o, "https://", ".github.dev")
  {
    WildcardEntry(o, AllowedOrigins[1], "https://", "github.dev", ".github.dev");
  }

  lemma EntryAppGithubDev(o: string)
    ensures EntryMatches(o, AllowedOrigins[2]) <==> Around(o, "https://", ".app.github.dev")
  {
    WildcardEntry(o, AllowedOrigins[2], "https://", "app.github.dev", ".app.github.dev");
  }

  lemma WildcardEntry(o: string, entry: string, pre: string, post: string, dotPost: string)
    requires '*' !in pre && entry == pre + "*." + post && dotPost == "." + post
    ensures EntryMatches(o, entry) <==> Around(o, pre, dotPost)
  {
    FirstIndexAfter(pre, "*.", post);
    assert entry[..|pre|] == pre && entry[|pre| + 1..] == "." + post;
  }

  lemma PlainEntry(o: string, entry: string)
    requires '*' !in entry
    ensures EntryMatches(o, entry) <==> Contains(o, entry)
  {
    forall i: nat | i + 2 <= |entry| ensures !OccursAt(entry, "*.", i) {
      assert entry[i..i + 2][0] == entry[i];
    }
  }

  lemma SomeMatchesThree(o: string, allowed: seq<string>)
    requires |allowed| == 3
    ensures SomeMatches(o, allowed) <==>
      EntryMatches(o, allowed[0]) || EntryMatches(o, allowed[1]) || EntryMatches(o, allowed[2])
  {
    var rest := allowed[1..];
    assert SomeMatches(o, allowed) == (EntryMatches(o, allowed[0]) || SomeMatches(o, rest));
    assert SomeMatches(o, rest) == (EntryMatches(o, rest[0]) || SomeMatches(o, rest[1..]));
    assert SomeMatches(o, rest[1..]) == (EntryMatches(o, rest[1]) || SomeMatches(o, rest[1..][1..]));
    assert rest[1..][1..] == [];
  }

  /** Every https subdomain of `github.dev` is allowed by the corrected
      test. */
  lemma IntendedAllowsSubdomains(sub: string)
    requires |sub| > 0
    ensures AllowOriginIntended(Some("https://" + sub + ".github.dev"))
  {
    var o := "https://" + sub + ".github.dev";
    assert Around(o, "https://", ".github.dev") by {
      assert o[..8] == "https://";
      assert o[|o| - 11..] == ".github.dev";
    }
    EntryGithubDev(o);
    SomeMatchesThree(o, AllowedOrigins);
  }

  /** Entries without `*` are judged the same by both tests. */
  lemma IntendedKeepsLocalhost(o: string)
    ensures EntryMatches(o, AllowedOrigins[0]) <==>
            Contains(o, ReplaceFirst(AllowedOrigins[0], "*.", ""))
  {
    StrippedLocalhost();
    EntryLocalhost(o);
  }

  /** The corrected test refuses a non-empty origin that neither holds
      the localhost literal nor ends in `.github.dev`. */
  lemma IntendedRefuses(o: string)
    requires o != "" && '3' !in o
    requires |o| < 11 || o[|o| - 11..] != ".github.dev"
    ensures !AllowOriginIntended(Some(o))
  {
    NoLocalhost(o);
    NotUnderGithubDev(o);
    IntendedIsSubdomainTest(o);
  }

  lemma NoLocalhost(o: string)
    requires '3' !in o
    ensures !Contains(o, "http://localhost:3000")
  {
    forall i: nat | i + 21 <= |o| ensures !OccursAt(o, "http://localhost:3000", i) {
      assert o[i..i + 21][17] == o[i + 17];
    }
  }

  lemma NotUnderGithubDev(o: string)
    requires |o| < 11 || o[|o| - 11..] != ".github.dev"
    ensures !Around(o, "https://", ".github.dev") && !Around(o, "https://", ".app.github.dev")
  {
    if |o| >= 15 {
      assert o[|o| - 11..] == o[|o| - 15..][4..];
    }
  }

  /** As written, every origin that starts with `https://github.dev` is
      allowed, whatever host name follows. */
  lemma AsWrittenAllowsAnyContinuation(rest: string)
    ensures AllowOrigin(Some("https://github.dev" + rest))
  {
    var o := "https://github.dev" + rest;
    AllowOriginIsSubstringTest(Some(o));
    ContainsInside([], "https://github.dev", rest);
    assert [] + "https://github.dev" + rest == o;
  }

  /** As written, a foreign host that merely continues `https://github.dev`
      (such as `https://github.dev.example.com`) is allowed; the corrected
      test refuses it. */
  lemma AsWrittenAllowsForeignHost(rest: string)
    requires '3' !in rest && |rest| >= 11 && rest[|rest| - 11..] != ".github.dev"
    ensures AllowOrigin(Some("https://github.dev" + rest))
    ensures !AllowOriginIntended(Some("https://github.dev" + rest))
  {
    AsWrittenAllowsAnyContinuation(rest);
    IntendedRefusesContinuation("https://github.dev" + rest, rest);
  }

  lemma IntendedRefusesContinuation(o: string, rest: string)
    requires o == "https://github.dev" + rest
    requires '3' !in rest && |rest| >= 11 && rest[|rest| - 11..] != ".github.dev"
    ensures !AllowOriginIntended(Some(o))
  {
    assert o[|o| - 11..] == rest[|rest| - 11..];
    assert '3' !in "https://github.dev";
    IntendedRefuses(o);
  }

  /** As written, an https subdomain of `github.dev` is refused unless
      its name happens to start one of the stripped literals (the usual
      codespace host names, such as `https://fuzzy-space-3000.github.dev`,
      start with neither `g` nor `a`); the corrected test allows it. */
  lemma AsWrittenRefusesSubdomain(sub: string)
    requires |sub| > 0 && '/' !in sub && sub[0] != 'g' && sub[0] != 'a'
    ensures !AllowOrigin(Some("https://" + sub + ".github.dev"))
    ensures AllowOriginIntended(Some("https://" + sub + ".github.dev"))
  {
    AsWrittenRefuses("https://" + sub + ".github.dev", sub, ".github.dev");
    IntendedAllowsSubdomains(sub);
  }

  /** In `o == "https://" + sub + tail` with no `/` after the scheme, the
      only `//` is the scheme's, so each stripped literal could occur only
      at the start, and there the first letter of `sub` rules it out. */
  lemma AsWrittenRefuses(o: string, sub: string, tail: string)
    requires |sub| > 0 && '/' !in sub && '/' !in tail && sub[0] != 'g' && sub[0] != 'a'
    requires o == "https://" + sub + tail
    ensures !AllowOrigin(Some(o))
  {
    assert o[..8] == "https://" && o[8] == sub[0];
    assert forall k :: 8 <= k < |o| ==> o[k] != '/' by {
      forall k | 8 <= k < |o| ensures o[k] != '/' {
        if k < 8 + |sub| {
          assert o[k] == sub[k - 8];
        } else {
          assert o[k] == tail[k - 8 - |sub|];
        }
      }
    }
    assert o[1] == 't';
    NoLiteralAt(o, "http://localhost:3000", 5);
    NoLiteralAt(o, "https://github.dev", 6);
    NoLiteralAt(o, "https://app.github.dev", 6);
    AllowOriginIsSubstringTest(Some(o));
  }

  /** A literal with `//` at `slash`, set against a text that starts
      with `https://` and has no `/` after that, can line its `//` up only
      with the scheme's; there the letter after the scheme (neither `g`
      nor `a`) or the `h` of `http` tells the two apart. */
  lemma NoLiteralAt(o: string, lit: string, slash: nat)
    requires |o| >= 9 && o[..8] == "https://" && o[8] != 'g' && o[8] != 'a'
    requires forall k :: 8 <= k < |o| ==> o[k] != '/'
    requires slash + 9 < |lit| && lit[slash] == '/' && lit[slash + 1] == '/'
    requires slash == 5 ==> lit[0] == 'h'
    requires slash == 6 ==> lit[8] == 'g' || lit[8] == 'a'
    requires slash == 5 || slash == 6
    ensures !Contains(o, lit)
  {
    assert o[1] == 't' && o[5] == ':' && o[6] == '/' && o[7] == '/';
    forall i: nat | i + |lit| <= |o| ensures !OccursAt(o, lit, i) {
      if i + slash >= 8 {
        MismatchAt(o, lit, i, slash);
      } else if i + slash == 7 {
        MismatchAt(o, lit, i, slash + 1);
      } else if slash == 6 {
        MismatchAt(o, lit, i, 8);
      } else if i == 1 {
        MismatchAt(o, lit, i, 0);
      } else {
        MismatchAt(o, lit, i, 5);
      }
    }
  }

  /** One differing character rules an occurrence out. */
  lemma MismatchAt(o: string, lit: string, i: nat, k: nat)
    requires i + |lit| <= |o| && k < |lit| && o[i + k] != lit[k]
    ensures !OccursAt(o, lit, i)
  {
    assert o[i..i + |lit|][k] == o[i + k];
  }
}
