/** The asset rewriting loop of the gateway (gateway/src/lib.rs): three guarded whole-string
    replacements per attribute, and what they amount to. */
module HtmlRewrite {
  import opened Common

  const GUARD: string := "__IPFS_GUARD__"
  const ATTRIBUTES: seq<string> := ["href", "src", "srcset"]

  predicate StartsWith(s: string, pat: string) {
    |pat| <= |s| && s[..|pat|] == pat
  }

  ghost predicate OccursAt(s: string, pat: string, i: nat) {
    i <= |s| && StartsWith(s[i..], pat)
  }

  ghost predicate Contains(s: string, pat: string) {
    exists i: nat :: OccursAt(s, pat, i)
  }

  /** `str::replace`: non-overlapping matches from the left. */
  function Replace(s: string, pat: string, rep: string): string
    requires pat != ""
  {
    if s == "" then ""
    else if StartsWith(s, pat) then rep + Replace(s[|pat|..], pat, rep)
    else [s[0]] + Replace(s[1..], pat, rep)
  }

  function Opening(attr: string): string { attr + "=\"" }

  /** An attribute value that is an absolute path. */
  function Absolute(attr: string): string { Opening(attr) + "/" }

  /** An attribute value already under /ipfs/. */
  function Ipfs(attr: string): string { Opening(attr) + "/ipfs/" }

  function GuardToken(attr: string): string { Opening(attr) + (GUARD + "/") }

  /** Protect the /ipfs/ values, prefix the absolute ones, restore the protected ones. */
  function ThreePasses(s: string, attr: string, base: string): string {
    Replace(Replace(Replace(s, Ipfs(attr), GuardToken(attr)), Absolute(attr), Opening(attr) + base),
            GuardToken(attr), Ipfs(attr))
  }

  /** The attribute among `attrs` whose absolute value opens here. */
  function TokenAt(s: string, attrs: seq<string>): (r: Option<string>)
    ensures r.Some? ==> r.value in attrs && StartsWith(s, Absolute(r.value))
    ensures r.None? ==> forall attr | attr in attrs :: !StartsWith(s, Absolute(attr))
  {
    if attrs == [] then None
    else
      var r := TokenAt(s, attrs[..|attrs| - 1]);
      if r.None? && StartsWith(s, Absolute(attrs[|attrs| - 1])) then Some(attrs[|attrs| - 1]) else r
  }

  /** One left-to-right pass: /ipfs/ values stand, every other absolute value gets the prefix. */
  function SinglePass(s: string, attrs: seq<string>, base: string): string
    decreases |s|
  {
    if s == "" then ""
    else match TokenAt(s, attrs)
      case Some(attr) =>
        if StartsWith(s, Ipfs(attr)) then Ipfs(attr) + SinglePass(s[|Ipfs(attr)|..], attrs, base)
        else Opening(attr) + base + SinglePass(s[|Absolute(attr)|..], attrs, base)
      case None => [s[0]] + SinglePass(s[1..], attrs, base)
  }

  // ── Matches that cannot straddle ─────────────────────────────────

  ghost predicate Clash(a: string, b: string) {
    exists k :: 0 <= k < |a| && k < |b| && a[k] != b[k]
  }

  /** No proper suffix of `q` can be continued to a match where `w` stands. */
  ghost predicate NoOverlap(q: string, w: string) {
    forall j :: 1 <= j < |q| ==> Clash(q[j..], w)
  }

  /** No match of `pat` starts inside `w`, whatever follows. */
  ghost predicate Sealed(w: string, pat: string) {
    forall i :: 0 <= i < |w| ==> Clash(w[i..], pat)
  }

  lemma ClashExtends(a: string, a': string, b: string, b': string)
    requires Clash(a, b)
    ensures Clash(a + a', b + b')
  {
    var k :| 0 <= k < |a| && k < |b| && a[k] != b[k];
    assert (a + a')[k] != (b + b')[k];
  }

  lemma ClashPreventsMatch(w: string, rest: string, pat: string)
    requires Clash(w, pat)
    ensures !StartsWith(w + rest, pat)
  {
    var k :| 0 <= k < |w| && k < |pat| && w[k] != pat[k];
    assert (w + rest)[k] == w[k];
    assert |pat| <= |w + rest| ==> (w + rest)[..|pat|][k] == w[k];
  }

  lemma SealedShrinks(w: string, pat: string)
    requires w != "" && Sealed(w, pat)
    ensures Sealed(w[1..], pat)
  {
    assert forall i :: 0 <= i < |w[1..]| ==> w[1..][i..] == w[i + 1..];
  }

  lemma {:induction false} ReplaceCopies(w: string, rest: string, pat: string, rep: string)
    requires pat != "" && Sealed(w, pat)
    ensures Replace(w + rest, pat, rep) == w + Replace(rest, pat, rep)
    decreases |w|
  {
    if w == "" {
      assert w + rest == rest;
    } else {
      assert w[0..] == w;
      ClashPreventsMatch(w, rest, pat);
      assert (w + rest)[1..] == w[1..] + rest;
      SealedShrinks(w, pat);
      ReplaceCopies(w[1..], rest, pat, rep);
    }
  }

  lemma ReplaceAtMatch(rest: string, pat: string, rep: string)
    requires pat != ""
    ensures Replace(pat + rest, pat, rep) == rep + Replace(rest, pat, rep)
  {
    assert (pat + rest)[|pat|..] == rest;
  }

  lemma ReplaceSkips(c: char, rest: string, pat: string, rep: string)
    requires pat != "" && !StartsWith([c] + rest, pat)
    ensures Replace([c] + rest, pat, rep) == [c] + Replace(rest, pat, rep)
  {
    assert ([c] + rest)[1..] == rest;
  }

  /** Every match of `pat` that starts in `w` ends there, whatever follows. */
  ghost predicate EndsMatches(w: string, pat: string) {
    forall i :: 0 <= i < |w| ==> |w| - i >= |pat| || Clash(w[i..], pat)
  }

  lemma EndsMatchesShrinks(w: string, n: nat, pat: string)
    requires n <= |w| && EndsMatches(w, pat)
    ensures EndsMatches(w[n..], pat)
  {
    assert forall i :: 0 <= i < |w[n..]| ==> w[n..][i..] == w[i + n..];
  }

  lemma MatchEndsInside(w: string, rest: string, pat: string)
    requires w != "" && EndsMatches(w, pat)
    ensures StartsWith(w + rest, pat) <==> StartsWith(w, pat)
  {
    if |w| >= |pat| {
      assert (w + rest)[..|pat|] == w[..|pat|];
    } else {
      assert w[0..] == w;
      ClashPreventsMatch(w, rest, pat);
    }
  }

  lemma DropConcat(w: string, rest: string, n: nat)
    requires n <= |w|
    ensures (w + rest)[n..] == w[n..] + rest
  {
  }

  /** Replacing in `w` and in what follows is then independent. */
  lemma {:induction false} ReplaceSplits(w: string, rest: string, pat: string, rep: string)
    requires pat != "" && EndsMatches(w, pat)
    ensures Replace(w + rest, pat, rep) == Replace(w, pat, rep) + Replace(rest, pat, rep)
    decreases |w|
  {
    if w == "" {
      assert w + rest == rest;
    } else {
      MatchEndsInside(w, rest, pat);
      var n := if StartsWith(w, pat) then |pat| else 1;
      EndsMatchesShrinks(w, n, pat);
      DropConcat(w, rest, n);
      ReplaceSplits(w[n..], rest, pat, rep);
    }
  }

  lemma StartsWithCons(s: string, q: string)
    requires s != "" && q != ""
    ensures StartsWith(s, q) <==> s[0] == q[0] && StartsWith(s[1..], q[1..])
  {
    if |q| <= |s| {
      assert s[..|q|] == [s[0]] + s[1..][..|q| - 1];
      assert q == [q[0]] + q[1..];
    }
  }

  lemma MatchExcludesClash(s: string, a: string, b: string)
    requires StartsWith(s, a) && StartsWith(s, b)
    ensures !Clash(a, b)
  {
    assert forall k :: 0 <= k < |a| ==> a[k] == s[..|a|][k] == s[k];
    assert forall k :: 0 <= k < |b| ==> b[k] == s[..|b|][k] == s[k];
  }

  /** A replacement cannot create the tail of a pattern that does not overlap the replacement text. */
  lemma {:induction false} ReplaceReflects(s: string, pat: string, rep: string, q: string, j: nat)
    requires pat != "" && 1 <= j <= |q| && NoOverlap(q, rep)
    requires StartsWith(Replace(s, pat, rep), q[j..])
    ensures StartsWith(s, q[j..])
    decreases |s|
  {
    if j < |q| {
      var out := Replace(s, pat, rep);
      if StartsWith(s, pat) {
        assert StartsWith(out, rep);
        MatchExcludesClash(out, q[j..], rep);
      } else {
        StartsWithCons(out, q[j..]);
        assert q[j..][1..] == q[j + 1..];
        ReplaceReflects(s[1..], pat, rep, q, j + 1);
        StartsWithCons(s, q[j..]);
      }
    }
  }

  /** Replacing behind `c` cannot make `q` match at `c`. */
  lemma StillNoMatch(c: char, rest: string, pat: string, rep: string, q: string)
    requires pat != "" && q != "" && NoOverlap(q, rep) && !StartsWith([c] + rest, q)
    ensures !StartsWith([c] + Replace(rest, pat, rep), q)
  {
    var out := [c] + Replace(rest, pat, rep);
    assert out[1..] == Replace(rest, pat, rep) && ([c] + rest)[1..] == rest;
    StartsWithCons(out, q);
    StartsWithCons([c] + rest, q);
    if StartsWith(out, q) {
      ReplaceReflects(rest, pat, rep, q, 1);
    }
  }

  // ── The tokens of the loop ───────────────────────────────────────

  /** Inside one opening no opening starts anew. */
  lemma OpeningRestartsNowhere(attr: string, other: string, j: nat)
    requires attr in ATTRIBUTES && other in ATTRIBUTES && j < |Opening(attr)| && (j > 0 || attr != other)
    ensures Clash(Opening(attr)[j..], Opening(other))
  {
    var o, p := Opening(attr), Opening(other);
    assert o == "href=\"" || o == "src=\"" || o == "srcset=\"";
    assert p == "href=\"" || p == "src=\"" || p == "srcset=\"";
    var k := if j == 0 && o[0] == p[0] then 3 else if attr == "srcset" && j == 3 && p[0] == 's' then 1 else 0;
    assert o[j..][k] != p[k];
  }

  /** A token whose tail avoids the first letter of an attribute does not overlap that attribute. */
  lemma TokensDoNotOverlap(attr: string, tail: string, other: string, text: string)
    requires attr in ATTRIBUTES && other in ATTRIBUTES && other[0] !in tail
    ensures NoOverlap(Opening(attr) + tail, Opening(other) + text)
    ensures attr != other ==> Sealed(Opening(attr) + tail, Opening(other) + text)
  {
    var o := Opening(attr);
    var q := o + tail;
    forall j | 0 <= j < |q| && (j > 0 || attr != other)
      ensures Clash(q[j..], Opening(other) + text)
    {
      if j < |o| {
        OpeningRestartsNowhere(attr, other, j);
        ClashExtends(o[j..], tail, Opening(other), text);
        assert q[j..] == o[j..] + tail;
      } else {
        assert q[j..][0] == tail[j - |o|];
        assert (Opening(other) + text)[0] == other[0];
      }
    }
  }

  /** Two tokens of one attribute are sealed against each other when their tails clash. */
  lemma TokenIsSealed(attr: string, tail: string, other: string)
    requires attr in ATTRIBUTES && attr[0] !in tail && Clash(tail, other)
    ensures Sealed(Opening(attr) + tail, Opening(attr) + other)
  {
    var o := Opening(attr);
    TokensDoNotOverlap(attr, tail, attr, other);
    var k :| 0 <= k < |tail| && k < |other| && tail[k] != other[k];
    assert (o + tail)[0..][|o| + k] == tail[k] && (o + other)[|o| + k] == other[k];
  }

  predicate EndsWithSlash(s: string) { s != "" && s[|s| - 1] == '/' }

  /** A match of a slash-terminated token that starts in slash-terminated text ends there. */
  lemma SlashStopsMatches(w: string, token: string)
    requires EndsWithSlash(w) && token != "" && '/' !in token[..|token| - 1]
    ensures EndsMatches(w, token)
  {
    forall i | 0 <= i < |w| && |w| - i < |token|
      ensures Clash(w[i..], token)
    {
      var b := w[i..];
      assert b[|b| - 1] == '/';
      assert token[|b| - 1] == token[..|token| - 1][|b| - 1];
    }
  }

  // ── Three passes against one ─────────────────────────────────────

  /** What the three passes do, in one reading: a guard token of the input is turned into an /ipfs/
      value, and so is one inside an inserted prefix. */
  ghost function GuardedPass(s: string, attr: string, base: string): string
    decreases |s|
  {
    if s == "" then ""
    else if StartsWith(s, Ipfs(attr)) then Ipfs(attr) + GuardedPass(s[|Ipfs(attr)|..], attr, base)
    else if StartsWith(s, Absolute(attr)) then
      Replace(Opening(attr) + base, GuardToken(attr), Ipfs(attr)) + GuardedPass(s[|Absolute(attr)|..], attr, base)
    else if StartsWith(s, GuardToken(attr)) then Ipfs(attr) + GuardedPass(s[|GuardToken(attr)|..], attr, base)
    else [s[0]] + GuardedPass(s[1..], attr, base)
  }

  lemma Letters(attr: string)
    requires attr in ATTRIBUTES
    ensures attr[0] !in GUARD + "/" && attr[0] !in "/" && '/' !in GuardToken(attr)[..|GuardToken(attr)| - 1]
    ensures Clash(GUARD + "/", "/") && Clash(GUARD + "/", "/ipfs/")
  {
    var o := Opening(attr);
    assert '/' !in o && '/' !in GUARD;
    assert GuardToken(attr)[..|GuardToken(attr)| - 1] == o + GUARD;
    assert (GUARD + "/")[0] == '_';
  }

  /** The first pass leaves an absolute value that is not an /ipfs/ one alone. */
  lemma FirstPassCopiesAbsolute(attr: string, rest: string)
    requires attr in ATTRIBUTES && !StartsWith(Absolute(attr) + rest, Ipfs(attr))
    ensures Replace(Absolute(attr) + rest, Ipfs(attr), GuardToken(attr))
         == Absolute(attr) + Replace(rest, Ipfs(attr), GuardToken(attr))
  {
    var a, b, g := Ipfs(attr), Absolute(attr), GuardToken(attr);
    Letters(attr);
    TokensDoNotOverlap(attr, "/", attr, "/ipfs/");
    assert b + rest == [b[0]] + (b[1..] + rest);
    ReplaceSkips(b[0], b[1..] + rest, a, g);
    assert forall i :: 0 <= i < |b[1..]| ==> b[1..][i..] == b[i + 1..];
    ReplaceCopies(b[1..], rest, a, g);
  }

  /** The three passes for one attribute, on every input. */
  lemma {:induction false} ThreePassesAreGuarded(s: string, attr: string, base: string)
    requires attr in ATTRIBUTES && EndsWithSlash(base)
    ensures ThreePasses(s, attr, base) == GuardedPass(s, attr, base)
    decreases |s|
  {
    var o, a, b, g := Opening(attr), Ipfs(attr), Absolute(attr), GuardToken(attr);
    Letters(attr);
    if s == "" {
    } else if StartsWith(s, a) {
      var rest := s[|a|..];
      assert s == a + rest;
      ReplaceAtMatch(rest, a, g);
      TokenIsSealed(attr, GUARD + "/", "/");
      ReplaceCopies(g, Replace(rest, a, g), b, o + base);
      ReplaceAtMatch(Replace(Replace(rest, a, g), b, o + base), g, a);
      ThreePassesAreGuarded(rest, attr, base);
    } else if StartsWith(s, b) {
      var rest := s[|b|..];
      assert s == b + rest;
      FirstPassCopiesAbsolute(attr, rest);
      ReplaceAtMatch(Replace(rest, a, g), b, o + base);
      SlashStopsMatches(o + base, g);
      ReplaceSplits(o + base, Replace(Replace(rest, a, g), b, o + base), g, a);
      ThreePassesAreGuarded(rest, attr, base);
    } else if StartsWith(s, g) {
      var rest := s[|g|..];
      assert s == g + rest;
      TokenIsSealed(attr, GUARD + "/", "/ipfs/");
      ReplaceCopies(g, rest, a, g);
      TokenIsSealed(attr, GUARD + "/", "/");
      ReplaceCopies(g, Replace(rest, a, g), b, o + base);
      ReplaceAtMatch(Replace(Replace(rest, a, g), b, o + base), g, a);
      ThreePassesAreGuarded(rest, attr, base);
    } else {
      var c, rest := s[0], s[1..];
      assert s == [c] + rest;
      ReplaceSkips(c, rest, a, g);
      TokensDoNotOverlap(attr, "/", attr, GUARD + "/");
      StillNoMatch(c, rest, a, g, b);
      ReplaceSkips(c, Replace(rest, a, g), b, o + base);
      TokensDoNotOverlap(attr, GUARD + "/", attr, GUARD + "/");
      StillNoMatch(c, rest, a, g, g);
      TokensDoNotOverlap(attr, GUARD + "/", attr, base);
      StillNoMatch(c, Replace(rest, a, g), b, o + base, g);
      ReplaceSkips(c, Replace(Replace(rest, a, g), b, o + base), g, a);
      ThreePassesAreGuarded(rest, attr, base);
    }
  }

  /** Some absolute value outside /ipfs/ gets the prefix. */
  ghost predicate Prefixes(s: string, attr: string) {
    exists i: nat :: OccursAt(s, Absolute(attr), i) && !OccursAt(s, Ipfs(attr), i)
  }

  ghost predicate PassesAgree(s: string, attr: string, base: string) {
    !Contains(s, GuardToken(attr)) && (Contains(Opening(attr) + base, GuardToken(attr)) ==> !Prefixes(s, attr))
  }

  lemma TokenAtOne(s: string, attr: string)
    ensures TokenAt(s, [attr]) == if StartsWith(s, Absolute(attr)) then Some(attr) else None
    ensures StartsWith(s, Ipfs(attr)) ==> StartsWith(s, Absolute(attr))
  {
    if StartsWith(s, Ipfs(attr)) {
      assert s[..|Absolute(attr)|] == s[..|Ipfs(attr)|][..|Absolute(attr)|] == Absolute(attr);
    }
  }

  lemma {:induction false} SinglePassCopies(w: string, rest: string, attrs: seq<string>, base: string)
    requires forall attr | attr in attrs :: Sealed(w, Absolute(attr))
    ensures SinglePass(w + rest, attrs, base) == w + SinglePass(rest, attrs, base)
    decreases |w|
  {
    if w == "" {
      assert w + rest == rest;
    } else {
      assert w[0..] == w;
      var t := TokenAt(w + rest, attrs);
      if t.Some? {
        ClashPreventsMatch(w, rest, Absolute(t.value));
      }
      assert (w + rest)[1..] == w[1..] + rest;
      forall attr | attr in attrs ensures Sealed(w[1..], Absolute(attr)) { SealedShrinks(w, Absolute(attr)); }
      SinglePassCopies(w[1..], rest, attrs, base);
    }
  }

  /** Whether `q` occurs is decided at the front and behind it. */
  lemma ContainsUnfolds(s: string, q: string)
    requires q != ""
    ensures Contains(s, q) <==> StartsWith(s, q) || (s != "" && Contains(s[1..], q))
  {
    assert s[0..] == s;
    if StartsWith(s, q) {
      assert OccursAt(s, q, 0);
    }
    if s != "" && Contains(s[1..], q) {
      var i: nat :| OccursAt(s[1..], q, i);
      assert s[1..][i..] == s[i + 1..];
      assert OccursAt(s, q, i + 1);
    }
    if Contains(s, q) && !StartsWith(s, q) {
      var i: nat :| OccursAt(s, q, i);
      assert s[1..][i - 1..] == s[i..];
      assert OccursAt(s[1..], q, i - 1);
    }
  }

  lemma {:induction false} ContainsBehindSealed(w: string, rest: string, q: string)
    requires q != "" && Sealed(w, q)
    ensures Contains(w + rest, q) <==> Contains(rest, q)
    decreases |w|
  {
    if w == "" {
      assert w + rest == rest;
    } else {
      assert w[0..] == w;
      ClashPreventsMatch(w, rest, q);
      ContainsUnfolds(w + rest, q);
      assert (w + rest)[1..] == w[1..] + rest;
      SealedShrinks(w, q);
      ContainsBehindSealed(w[1..], rest, q);
    }
  }

  lemma PrefixesUnfolds(s: string, attr: string)
    ensures Prefixes(s, attr) <==>
      (StartsWith(s, Absolute(attr)) && !StartsWith(s, Ipfs(attr))) || (s != "" && Prefixes(s[1..], attr))
  {
    var a, b := Ipfs(attr), Absolute(attr);
    assert s[0..] == s;
    if StartsWith(s, b) && !StartsWith(s, a) {
      assert OccursAt(s, b, 0) && !OccursAt(s, a, 0);
    }
    if s != "" && Prefixes(s[1..], attr) {
      var i: nat :| OccursAt(s[1..], b, i) && !OccursAt(s[1..], a, i);
      assert s[1..][i..] == s[i + 1..];
      assert OccursAt(s, b, i + 1) && !OccursAt(s, a, i + 1);
    }
    if Prefixes(s, attr) && !(StartsWith(s, b) && !StartsWith(s, a)) {
      var i: nat :| OccursAt(s, b, i) && !OccursAt(s, a, i);
      assert s[1..][i - 1..] == s[i..];
      assert OccursAt(s[1..], b, i - 1) && !OccursAt(s[1..], a, i - 1);
    }
  }

  lemma {:induction false} PrefixesBehindSealed(w: string, rest: string, attr: string)
    requires Sealed(w, Absolute(attr))
    ensures Prefixes(w + rest, attr) <==> Prefixes(rest, attr)
    decreases |w|
  {
    if w == "" {
      assert w + rest == rest;
    } else {
      assert w[0..] == w;
      ClashPreventsMatch(w, rest, Absolute(attr));
      PrefixesUnfolds(w + rest, attr);
      assert (w + rest)[1..] == w[1..] + rest;
      SealedShrinks(w, Absolute(attr));
      PrefixesBehindSealed(w[1..], rest, attr);
    }
  }

  /** Replacing a pattern by a shorter text shortens the string exactly when the pattern occurs. */
  lemma {:induction false} ReplaceShortens(s: string, pat: string, rep: string)
    requires |rep| < |pat|
    ensures |Replace(s, pat, rep)| <= |s|
    ensures |Replace(s, pat, rep)| == |s| <==> !Contains(s, pat)
    ensures !Contains(s, pat) ==> Replace(s, pat, rep) == s
    decreases |s|
  {
    ContainsUnfolds(s, pat);
    if s != "" {
      ReplaceShortens(if StartsWith(s, pat) then s[|pat|..] else s[1..], pat, rep);
    }
  }

  /** Behind its first character a token hides no match of the attribute, and it hides no guard token. */
  lemma TokenTailsAreSealed(attr: string)
    requires attr in ATTRIBUTES
    ensures Sealed(Ipfs(attr)[1..], Absolute(attr))
    ensures Sealed(Ipfs(attr), GuardToken(attr)) && Sealed(Absolute(attr), GuardToken(attr))
  {
    TokensAreSealedFromGuard(attr);
    IpfsTailIsSealed(attr);
  }

  lemma TokensAreSealedFromGuard(attr: string)
    requires attr in ATTRIBUTES
    ensures Sealed(Ipfs(attr), GuardToken(attr)) && Sealed(Absolute(attr), GuardToken(attr))
  {
    Letters(attr);
    SlashStopsMatches(Ipfs(attr), GuardToken(attr));
    SlashStopsMatches(Absolute(attr), GuardToken(attr));
  }

  lemma IpfsTailIsSealed(attr: string)
    requires attr in ATTRIBUTES
    ensures Sealed(Ipfs(attr)[1..], Absolute(attr))
  {
    var o, a, b := Opening(attr), Ipfs(attr), Absolute(attr);
    Letters(attr);
    assert b[..|b| - 1] == o;
    SlashStopsMatches(a, b);
    forall i | 0 <= i < |a[1..]|
      ensures Clash(a[1..][i..], b)
    {
      assert a[1..][i..] == a[i + 1..];
      if i + 1 < |o| {
        OpeningRestartsNowhere(attr, attr, i + 1);
        ClashExtends(o[i + 1..], "/ipfs/", o, "/");
        assert a[i + 1..] == o[i + 1..] + "/ipfs/";
      } else if i + 1 == |o| {
        assert a[i + 1..][0] == '/' && b[0] != '/';
      }
    }
  }

  lemma ConditionBehindIpfs(rest: string, attr: string, base: string)
    requires attr in ATTRIBUTES
    ensures PassesAgree(Ipfs(attr) + rest, attr, base) <==> PassesAgree(rest, attr, base)
  {
    var a := Ipfs(attr);
    TokenTailsAreSealed(attr);
    ContainsBehindSealed(a, rest, GuardToken(attr));
    PrefixesUnfolds(a + rest, attr);
    assert (a + rest)[..|a|] == a;
    assert (a + rest)[1..] == a[1..] + rest;
    PrefixesBehindSealed(a[1..], rest, attr);
  }

  lemma {:induction false} LengthsDecide(s: string, attr: string, base: string)
    requires attr in ATTRIBUTES
    ensures |GuardedPass(s, attr, base)| <= |SinglePass(s, [attr], base)|
    ensures |GuardedPass(s, attr, base)| == |SinglePass(s, [attr], base)| <==> PassesAgree(s, attr, base)
    ensures PassesAgree(s, attr, base) ==> GuardedPass(s, attr, base) == SinglePass(s, [attr], base)
    decreases |s|
  {
    var o, a, b, g := Opening(attr), Ipfs(attr), Absolute(attr), GuardToken(attr);
    TokenAtOne(s, attr);
    ContainsUnfolds(s, g);
    PrefixesUnfolds(s, attr);
    if s == "" {
    } else if StartsWith(s, a) {
      var rest := s[|a|..];
      assert s == a + rest;
      ConditionBehindIpfs(rest, attr, base);
      LengthsDecide(rest, attr, base);
    } else if StartsWith(s, b) {
      var rest := s[|b|..];
      assert s == b + rest;
      TokenTailsAreSealed(attr);
      ContainsBehindSealed(b, rest, g);
      ReplaceShortens(o + base, g, a);
      LengthsDecide(rest, attr, base);
    } else if StartsWith(s, g) {
      var rest := s[|g|..];
      assert s == g + rest;
      Letters(attr);
      TokenIsSealed(attr, GUARD + "/", "/");
      SinglePassCopies(g, rest, [attr], base);
      LengthsDecide(rest, attr, base);
    } else {
      LengthsDecide(s[1..], attr, base);
    }
  }

  /** Exactly when the guarded passes for one attribute are the single pass they stand for: the input
      holds no guard token, and neither does the prefix unless it is never inserted. */
  lemma {:induction false} ThreePassesAreOneExactlyWhen(s: string, attr: string, base: string)
    requires attr in ATTRIBUTES && EndsWithSlash(base)
    ensures ThreePasses(s, attr, base) == SinglePass(s, [attr], base) <==>
      !Contains(s, GuardToken(attr)) && (Contains(Opening(attr) + base, GuardToken(attr)) ==> !Prefixes(s, attr))
  {
    ThreePassesAreGuarded(s, attr, base);
    LengthsDecide(s, attr, base);
  }

  // ── The whole loop is a single pass ──────────────────────────────

  /** A prefix a gateway route produces: slash-delimited, without quotation marks or the guard. */
  ghost predicate PlainBase(base: string) {
    EndsWithSlash(base) && base[0] == '/' && '"' !in base && !Contains(base, GUARD)
  }

  ghost predicate Fresh(attr: string, attrs: seq<string>) {
    && attr in ATTRIBUTES && attr !in attrs && (forall x | x in attrs :: x in ATTRIBUTES)
  }

  /** The text a pass writes for one attribute opens no value of another attribute. */
  lemma WrittenTextIsSealed(x: string, attr: string, base: string)
    requires x in ATTRIBUTES && attr in ATTRIBUTES && x != attr && PlainBase(base)
    ensures Sealed(Ipfs(x), Absolute(attr)) && Sealed(Opening(x) + base, Absolute(attr))
    ensures Sealed(Absolute(x), Absolute(attr))
  {
    QuoteFreeIsSealed(x, "/ipfs/", attr);
    QuoteFreeIsSealed(x, "/", attr);
    QuoteFreeIsSealed(x, base, attr);
  }

  lemma QuoteFreeIsSealed(x: string, tail: string, attr: string)
    requires x in ATTRIBUTES && attr in ATTRIBUTES && x != attr && EndsWithSlash(tail) && '"' !in tail
    ensures Sealed(Opening(x) + tail, Absolute(attr))
  {
    var o, b := Opening(x), Absolute(attr);
    var w := o + tail;
    assert b[..|b| - 1] == Opening(attr) && b[|b| - 2] == '"';
    SlashStopsMatches(w, b);
    forall i | 0 <= i < |w|
      ensures Clash(w[i..], b)
    {
      if i < |o| {
        OpeningRestartsNowhere(x, attr, i);
        ClashExtends(o[i..], tail, Opening(attr), "/");
        assert w[i..] == o[i..] + tail;
      } else if |w| - i >= |b| {
        assert w[i..][|b| - 2] == tail[i + |b| - 2 - |o|];
      }
    }
  }

  /** A pass cannot create the tail of a token of another attribute, nor of the guard. */
  lemma {:induction false} PassReflects(s: string, attrs: seq<string>, base: string, q: string, j: nat)
    requires 1 <= j <= |q| && forall x | x in attrs :: NoOverlap(q, Opening(x))
    requires StartsWith(SinglePass(s, attrs, base), q[j..])
    ensures StartsWith(s, q[j..])
    decreases |s|
  {
    if j < |q| && s != "" {
      var out := SinglePass(s, attrs, base);
      match TokenAt(s, attrs)
      case Some(x) =>
        assert StartsWith(out, Opening(x)) by {
          if StartsWith(s, Ipfs(x)) {
            assert out[..|Opening(x)|] == Ipfs(x)[..|Opening(x)|];
          }
        }
        MatchExcludesClash(out, q[j..], Opening(x));
      case None =>
        StartsWithCons(out, q[j..]);
        assert q[j..][1..] == q[j + 1..];
        PassReflects(s[1..], attrs, base, q, j + 1);
        StartsWithCons(s, q[j..]);
    }
  }

  lemma StillNoTokenBehindPass(c: char, rest: string, attrs: seq<string>, base: string, q: string)
    requires q != "" && (forall x | x in attrs :: NoOverlap(q, Opening(x))) && !StartsWith([c] + rest, q)
    ensures !StartsWith([c] + SinglePass(rest, attrs, base), q)
  {
    var out := [c] + SinglePass(rest, attrs, base);
    assert out[1..] == SinglePass(rest, attrs, base) && ([c] + rest)[1..] == rest;
    StartsWithCons(out, q);
    StartsWithCons([c] + rest, q);
    if StartsWith(out, q) {
      PassReflects(rest, attrs, base, q, 1);
    }
  }

  lemma IpfsTail(attr: string, r: string)
    ensures StartsWith(Absolute(attr) + r, Ipfs(attr)) <==> StartsWith(r, "ipfs/")
  {
    var b, a := Absolute(attr), Ipfs(attr);
    assert a == b + "ipfs/";
    if |r| >= 5 {
      assert (b + r)[..|a|] == b + r[..5];
      assert (b + r)[..|a|][|b|..] == r[..5] && a[|b|..] == "ipfs/";
    }
  }

  /** A pass for one more attribute merges into the pass before it. */
  lemma {:induction false} PassesMerge(s: string, attrs: seq<string>, attr: string, base: string)
    requires Fresh(attr, attrs) && PlainBase(base)
    ensures SinglePass(SinglePass(s, attrs, base), [attr], base) == SinglePass(s, attrs + [attr], base)
    decreases |s|
  {
    var o, a, b := Opening(attr), Ipfs(attr), Absolute(attr);
    var more := attrs + [attr];
    assert more[..|more| - 1] == attrs;
    TokenAtOne(s, attr);
    forall x | x in attrs
      ensures Sealed(a, Absolute(x)) && Sealed(b, Absolute(x)) && NoOverlap(b, Opening(x))
      ensures Sealed(Ipfs(x), b) && Sealed(Opening(x) + base, b)
    {
      WrittenTextIsSealed(attr, x, base);
      WrittenTextIsSealed(x, attr, base);
      Letters(x);
      TokensDoNotOverlap(attr, "/", x, "");
      assert Opening(x) + "" == Opening(x);
    }
    if s != "" {
      match TokenAt(s, attrs)
      case Some(x) =>
        var ipfs := StartsWith(s, Ipfs(x));
        var rest := if ipfs then s[|Ipfs(x)|..] else s[|Absolute(x)|..];
        SinglePassCopies(if ipfs then Ipfs(x) else Opening(x) + base, SinglePass(rest, attrs, base), [attr], base);
        PassesMerge(rest, attrs, attr, base);
      case None =>
        if StartsWith(s, a) {
          var rest := s[|a|..];
          assert s == a + rest;
          SinglePassCopies(a, rest, attrs, base);
          PassAtIpfs(SinglePass(rest, attrs, base), attr, base);
          PassesMerge(rest, attrs, attr, base);
        } else if StartsWith(s, b) {
          var rest := s[|b|..];
          assert s == b + rest;
          SinglePassCopies(b, rest, attrs, base);
          IpfsTail(attr, rest);
          IpfsTailReflects(rest, attrs, base);
          PassAtAbsolute(SinglePass(rest, attrs, base), attr, base);
          PassesMerge(rest, attrs, attr, base);
        } else {
          assert s == [s[0]] + s[1..];
          StillNoTokenBehindPass(s[0], s[1..], attrs, base, b);
          TokenAtOne(SinglePass(s, attrs, base), attr);
          PassesMerge(s[1..], attrs, attr, base);
        }
    }
  }

  lemma PassAtIpfs(rest: string, attr: string, base: string)
    ensures SinglePass(Ipfs(attr) + rest, [attr], base) == Ipfs(attr) + SinglePass(rest, [attr], base)
  {
    var s := Ipfs(attr) + rest;
    assert s[..|Ipfs(attr)|] == Ipfs(attr) && s[|Ipfs(attr)|..] == rest;
    TokenAtOne(s, attr);
  }

  lemma PassAtAbsolute(rest: string, attr: string, base: string)
    requires !StartsWith(rest, "ipfs/")
    ensures SinglePass(Absolute(attr) + rest, [attr], base) == Opening(attr) + base + SinglePass(rest, [attr], base)
  {
    var s := Absolute(attr) + rest;
    assert s[..|Absolute(attr)|] == Absolute(attr) && s[|Absolute(attr)|..] == rest;
    TokenAtOne(s, attr);
    IpfsTail(attr, rest);
  }

  lemma IpfsTailReflects(rest: string, attrs: seq<string>, base: string)
    requires forall x | x in attrs :: x in ATTRIBUTES
    ensures StartsWith(SinglePass(rest, attrs, base), "ipfs/") ==> StartsWith(rest, "ipfs/")
  {
    var q := "/ipfs/";
    forall x | x in attrs
      ensures NoOverlap(q, Opening(x))
    {
      assert Opening(x) == "href=\"" || Opening(x) == "src=\"" || Opening(x) == "srcset=\"";
      forall j | 1 <= j < |q|
        ensures Clash(q[j..], Opening(x))
      {
        var k := if j == 4 then 1 else 0;
        assert q[j..][k] != Opening(x)[k];
      }
    }
    assert q[1..] == "ipfs/";
    if StartsWith(SinglePass(rest, attrs, base), "ipfs/") {
      PassReflects(rest, attrs, base, q, 1);
    }
  }

  /** Text that ends in a slash splits the search for a slash-free word. */
  lemma ContainsAcrossSlash(w: string, rest: string, q: string)
    requires EndsWithSlash(w) && '/' !in q && Contains(w + rest, q)
    ensures Contains(w, q) || Contains(rest, q)
  {
    var s := w + rest;
    var i: nat :| OccursAt(s, q, i);
    forall m | i <= m < i + |q|
      ensures s[m] != '/'
    {
      assert s[i..][..|q|][m - i] == s[m];
    }
    assert s[|w| - 1] == '/';
    if i >= |w| {
      assert s[i..] == rest[i - |w|..];
      assert OccursAt(rest, q, i - |w|);
    } else {
      assert i + |q| <= |w|;
      assert w[i..][..|q|] == s[i..][..|q|];
      assert OccursAt(w, q, i);
    }
  }

  lemma NoGuardBehindOpening(attr: string, tail: string)
    requires attr in ATTRIBUTES && !Contains(tail, GUARD)
    ensures !Contains(Opening(attr) + tail, GUARD)
  {
    var o := Opening(attr);
    assert '_' !in o;
    forall i | 0 <= i < |o|
      ensures Clash(o[i..], GUARD)
    {
      assert o[i..][0] != GUARD[0];
    }
    ContainsBehindSealed(o, tail, GUARD);
  }

  lemma NoGuardInIpfs()
    ensures !Contains("/ipfs/", GUARD)
  {
    assert |GUARD| == 14;
    assert forall i: nat :: i <= |"/ipfs/"| ==> |"/ipfs/"[i..]| <= 6;
  }

  lemma {:induction false} PassKeepsGuardOut(s: string, attrs: seq<string>, base: string)
    requires PlainBase(base) && !Contains(s, GUARD) && forall x | x in attrs :: x in ATTRIBUTES
    ensures !Contains(SinglePass(s, attrs, base), GUARD)
    decreases |s|
  {
    if s != "" {
      match TokenAt(s, attrs)
      case Some(x) =>
        var rest := if StartsWith(s, Ipfs(x)) then s[|Ipfs(x)|..] else s[|Absolute(x)|..];
        ContainsShrinks(s, |s| - |rest|, GUARD);
        PassKeepsGuardOut(rest, attrs, base);
        WrittenTextHoldsNoGuard(x, SinglePass(rest, attrs, base), base);
      case None =>
        ContainsUnfolds(s, GUARD);
        PassKeepsGuardOut(s[1..], attrs, base);
        CopiedCharMakesNoGuard(s, attrs, base);
    }
  }

  lemma WrittenTextHoldsNoGuard(x: string, rest: string, base: string)
    requires x in ATTRIBUTES && PlainBase(base) && !Contains(rest, GUARD)
    ensures !Contains(Ipfs(x) + rest, GUARD) && !Contains(Opening(x) + base + rest, GUARD)
  {
    NoGuardInIpfs();
    NoGuardBehindOpening(x, "/ipfs/");
    NoGuardBehindOpening(x, base);
    if Contains(Ipfs(x) + rest, GUARD) {
      ContainsAcrossSlash(Ipfs(x), rest, GUARD);
    }
    if Contains(Opening(x) + base + rest, GUARD) {
      ContainsAcrossSlash(Opening(x) + base, rest, GUARD);
    }
  }

  lemma CopiedCharMakesNoGuard(s: string, attrs: seq<string>, base: string)
    requires s != "" && !StartsWith(s, GUARD) && PlainBase(base) && forall x | x in attrs :: x in ATTRIBUTES
    requires TokenAt(s, attrs).None? && !Contains(SinglePass(s[1..], attrs, base), GUARD)
    ensures !Contains(SinglePass(s, attrs, base), GUARD)
  {
    var out := SinglePass(s, attrs, base);
    forall x | x in attrs
      ensures NoOverlap(GUARD, Opening(x))
    {
      assert x[0] !in GUARD;
      forall j | 1 <= j < |GUARD| ensures Clash(GUARD[j..], Opening(x)) { assert GUARD[j..][0] != Opening(x)[0]; }
    }
    assert s == [s[0]] + s[1..];
    StillNoTokenBehindPass(s[0], s[1..], attrs, base, GUARD);
    assert out[1..] == SinglePass(s[1..], attrs, base);
    ContainsUnfolds(out, GUARD);
  }

  lemma ContainsShrinks(s: string, n: nat, pat: string)
    requires n <= |s|
    ensures Contains(s[n..], pat) ==> Contains(s, pat)
  {
    if Contains(s[n..], pat) {
      var i: nat :| OccursAt(s[n..], pat, i);
      assert s[n..][i..] == s[n + i..];
      assert OccursAt(s, pat, n + i);
    }
  }

  lemma NoGuardNoToken(s: string, attr: string)
    requires !Contains(s, GUARD)
    ensures !Contains(s, GuardToken(attr))
  {
    var o, g := Opening(attr), GuardToken(attr);
    if Contains(s, g) {
      var i: nat :| OccursAt(s, g, i);
      MatchInside(s[i..], o, GUARD, "/");
      assert s[i..][|o|..] == s[i + |o|..];
      assert OccursAt(s, GUARD, i + |o|);
    }
  }

  lemma MatchInside(s: string, before: string, middle: string, after: string)
    requires StartsWith(s, before + (middle + after))
    ensures StartsWith(s[|before|..], middle)
  {
    var whole := before + (middle + after);
    assert whole[|before|..|before| + |middle|] == middle;
    assert s[|before|..][..|middle|] == s[..|whole|][|before|..|before| + |middle|];
  }

  // ── The loop ─────────────────────────────────────────────────────

  /** The prefix with the trailing slash the code adds when it is missing. */
  function SlashTerminated(basePrefix: string): (base: string)
    ensures EndsWithSlash(base)
  {
    if EndsWithSlash(basePrefix) then basePrefix else basePrefix + "/"
  }

  /** The loop over `href`, `src` and `srcset`. Each iteration is three whole-string replacements; on
      input without the guard and with a plain prefix the whole loop is one left-to-right pass. */
  method RewriteAssetPaths(input: string, basePrefix: string) returns (html: string)
    ensures !Contains(input, GUARD) && PlainBase(SlashTerminated(basePrefix)) ==>
      html == SinglePass(input, ATTRIBUTES, SlashTerminated(basePrefix))
    ensures html == ThreePasses(ThreePasses(ThreePasses(input,
      "href", SlashTerminated(basePrefix)), "src", SlashTerminated(basePrefix)), "srcset", SlashTerminated(basePrefix))
  {
    var base := SlashTerminated(basePrefix);
    html := input;
    ghost var plain := !Contains(input, GUARD) && PlainBase(base);
    NothingToRewrite(input, base);
    for i := 0 to |ATTRIBUTES|
      invariant plain ==> html == SinglePass(input, ATTRIBUTES[..i], base) && !Contains(html, GUARD)
      invariant i == 0 ==> html == input
      invariant i == 1 ==> html == ThreePasses(input, "href", base)
      invariant i == 2 ==> html == ThreePasses(ThreePasses(input, "href", base), "src", base)
      invariant i == 3 ==>
                  html == ThreePasses(ThreePasses(ThreePasses(input, "href", base), "src", base), "srcset", base)
    {
      var attr := ATTRIBUTES[i];
      ghost var before := html;
      var guardToken := GuardToken(attr);
      html := Replace(html, Ipfs(attr), guardToken);
      html := Replace(html, Absolute(attr), Opening(attr) + base);
      html := Replace(html, guardToken, Ipfs(attr));
      assert html == ThreePasses(before, attr, base);
      if plain {
        LoopStep(input, before, ATTRIBUTES[..i], attr, base);
        assert ATTRIBUTES[..i + 1] == ATTRIBUTES[..i] + [attr];
      }
    }
    assert ATTRIBUTES[..|ATTRIBUTES|] == ATTRIBUTES;
  }

  lemma {:induction false} NothingToRewrite(s: string, base: string)
    ensures SinglePass(s, [], base) == s
    decreases |s|
  {
    if s != "" {
      NothingToRewrite(s[1..], base);
    }
  }

  lemma LoopStep(input: string, html: string, attrs: seq<string>, attr: string, base: string)
    requires Fresh(attr, attrs) && PlainBase(base)
    requires html == SinglePass(input, attrs, base) && !Contains(html, GUARD)
    ensures ThreePasses(html, attr, base) == SinglePass(input, attrs + [attr], base)
    ensures !Contains(ThreePasses(html, attr, base), GUARD)
  {
    NoGuardNoToken(html, attr);
    NoGuardBehindOpening(attr, base);
    NoGuardNoToken(Opening(attr) + base, attr);
    ThreePassesAreOneExactlyWhen(html, attr, base);
    PassesMerge(input, attrs, attr, base);
    PassKeepsGuardOut(html, [attr], base);
  }

  // ── Rewriting twice ──────────────────────────────────────────────

  /** The prefix lies under /ipfs/, or is no prefix at all, or is never inserted. */
  ghost predicate PassSettles(s: string, attrs: seq<string>, base: string) {
    StartsWith(base, "/ipfs/") || base == "/" || forall attr | attr in attrs :: !Prefixes(s, attr)
  }

  /** A second pass changes nothing exactly then. A prefix outside /ipfs/ is inserted again by every pass. */
  lemma {:induction false} RewritingTwiceExactlyWhen(s: string, attrs: seq<string>, base: string)
    requires PlainBase(base) && forall x | x in attrs :: x in ATTRIBUTES
    ensures SinglePass(SinglePass(s, attrs, base), attrs, base) == SinglePass(s, attrs, base) <==>
            PassSettles(s, attrs, base)
  {
    if base == "/" {
      EmptyPrefixChangesNothing(s, attrs);
    } else {
      SecondPassLengths(s, attrs, base);
    }
  }

  lemma {:induction false} EmptyPrefixChangesNothing(s: string, attrs: seq<string>)
    ensures SinglePass(s, attrs, "/") == s
    decreases |s|
  {
    if s != "" {
      match TokenAt(s, attrs)
      case Some(x) =>
        var w := if StartsWith(s, Ipfs(x)) then Ipfs(x) else Absolute(x);
        assert s == w + s[|w|..];
        EmptyPrefixChangesNothing(s[|w|..], attrs);
      case None => EmptyPrefixChangesNothing(s[1..], attrs);
    }
  }

  lemma {:induction false} SecondPassLengths(s: string, attrs: seq<string>, base: string)
    requires PlainBase(base) && base != "/" && forall x | x in attrs :: x in ATTRIBUTES
    ensures var once := SinglePass(s, attrs, base);
            var twice := SinglePass(once, attrs, base);
            |twice| >= |once| && (|twice| == |once| <==> PassSettles(s, attrs, base))
              && (|twice| == |once| ==> twice == once)
    decreases |s|
  {
    if s != "" {
      match TokenAt(s, attrs)
      case Some(x) =>
        var rest := if StartsWith(s, Ipfs(x)) then s[|Ipfs(x)|..] else s[|Absolute(x)|..];
        var out := SinglePass(rest, attrs, base);
        SecondPassLengths(rest, attrs, base);
        if StartsWith(s, Ipfs(x)) {
          assert s == Ipfs(x) + rest;
          SettlingBehindIpfs(x, rest, attrs, base);
          IpfsValueStands(x, out, attrs, base);
        } else {
          PrefixesUnfolds(s, x);
          if StartsWith(base, "/ipfs/") {
            PrefixStands(x, out, attrs, base);
          } else {
            PrefixGrows(x, out, attrs, base);
          }
        }
      case None =>
        assert s == [s[0]] + s[1..];
        forall x | x in attrs ensures Prefixes(s, x) <==> Prefixes(s[1..], x) { PrefixesUnfolds(s, x); }
        CopiedCharStands(s[0], s[1..], attrs, base);
        SecondPassLengths(s[1..], attrs, base);
    }
  }

  lemma SettlingBehindIpfs(x: string, rest: string, attrs: seq<string>, base: string)
    requires PlainBase(base) && x in attrs && forall y | y in attrs :: y in ATTRIBUTES
    ensures PassSettles(Ipfs(x) + rest, attrs, base) <==> PassSettles(rest, attrs, base)
  {
    forall y | y in attrs
      ensures Prefixes(Ipfs(x) + rest, y) <==> Prefixes(rest, y)
    {
      if y == x {
        ValueHidesNothing(x, rest);
      } else {
        WrittenTextIsSealed(x, y, base);
        PrefixesBehindSealed(Ipfs(x), rest, y);
      }
    }
  }

  lemma ValueHidesNothing(x: string, rest: string)
    requires x in ATTRIBUTES
    ensures Prefixes(Ipfs(x) + rest, x) <==> Prefixes(rest, x)
  {
    var a := Ipfs(x);
    IpfsTailIsSealed(x);
    PrefixesUnfolds(a + rest, x);
    assert (a + rest)[..|a|] == a;
    assert (a + rest)[1..] == a[1..] + rest;
    PrefixesBehindSealed(a[1..], rest, x);
  }

  /** A prefix that does not lie under /ipfs/ is taken for an absolute path again. */
  lemma PrefixGrows(x: string, rest: string, attrs: seq<string>, base: string)
    requires x in attrs && (forall y | y in attrs :: y in ATTRIBUTES)
    requires PlainBase(base) && base != "/" && !StartsWith(base, "/ipfs/")
    ensures SinglePass(Opening(x) + base + rest, attrs, base)
         == Opening(x) + base + (base[1..] + SinglePass(rest, attrs, base))
  {
    var s := Opening(x) + base + rest;
    assert base == "/" + base[1..];
    assert s == Absolute(x) + (base[1..] + rest);
    AbsoluteIsFound(s, x, attrs);
    NotUnderIpfs(base);
    ClashPreventsMatch(base, rest, "/ipfs/");
    OpeningAside(x, base + rest, "/ipfs/");
    assert s == Opening(x) + (base + rest);
    assert s[|Absolute(x)|..] == base[1..] + rest;
    PathStands(base[1..], rest, attrs, base);
  }

  lemma NotUnderIpfs(base: string)
    requires PlainBase(base) && base != "/" && !StartsWith(base, "/ipfs/")
    ensures Clash(base, "/ipfs/")
  {
    if |base| < 6 {
      assert base[|base| - 1] != "/ipfs/"[|base| - 1];
    } else {
      assert base[..6] != "/ipfs/";
    }
  }

  lemma OpeningAside(x: string, rest: string, path: string)
    ensures StartsWith(Opening(x) + rest, Opening(x) + path) <==> StartsWith(rest, path)
  {
    var o := Opening(x);
    if |path| <= |rest| {
      assert (o + rest)[..|o + path|] == o + rest[..|path|];
      assert (o + path)[|o|..] == path && (o + rest[..|path|])[|o|..] == rest[..|path|];
    }
  }

  /** A prefix such as the gateway's /{cid}/ and /{name}/ routes pass is doubled by a second pass. */
  lemma RewritingTwiceDoublesThePrefix()
    ensures PlainBase("/c/")
    ensures SinglePass(Absolute("href") + "x", ["href"], "/c/") == Opening("href") + "/c/" + "x"
    ensures SinglePass(Opening("href") + "/c/" + "x", ["href"], "/c/") == Opening("href") + "/c/" + ("c/" + "x")
  {
    assert forall i: nat :: !OccursAt("/c/", GUARD, i);
    assert "/c/"[1..] == "c/";
    NothingInside("x");
    PrefixGrows("href", "x", ["href"], "/c/");
    AbsoluteIsFound(Absolute("href") + "x", "href", ["href"]);
    assert (Absolute("href") + "x")[|Absolute("href")|..] == "x";
  }

  lemma NothingInside(s: string)
    requires |s| == 1
    ensures SinglePass(s, ["href"], "/c/") == s
  {
    assert TokenAt(s, ["href"]) == None;
    assert s == [s[0]] + s[1..];
  }

  lemma PrefixStands(x: string, rest: string, attrs: seq<string>, base: string)
    requires x in attrs && (forall y | y in attrs :: y in ATTRIBUTES)
    requires PlainBase(base) && StartsWith(base, "/ipfs/")
    ensures SinglePass(Opening(x) + base + rest, attrs, base) == Opening(x) + base + SinglePass(rest, attrs, base)
  {
    assert base == "/ipfs/" + base[6..];
    assert Opening(x) + base == Ipfs(x) + base[6..];
    WrittenTextStands(x, base[6..], rest, attrs, base);
  }

  lemma WrittenTextStands(x: string, more: string, rest: string, attrs: seq<string>, base: string)
    requires x in attrs && (forall y | y in attrs :: y in ATTRIBUTES)
    requires '"' !in more && (more == "" || EndsWithSlash(more))
    ensures SinglePass(Ipfs(x) + more + rest, attrs, base) == Ipfs(x) + more + SinglePass(rest, attrs, base)
  {
    PathStands(more, rest, attrs, base);
    IpfsValueStands(x, more + rest, attrs, base);
    Associates(Ipfs(x), more, rest);
    Associates(Ipfs(x), more, SinglePass(rest, attrs, base));
  }

  lemma Associates(a: string, b: string, c: string)
    ensures a + b + c == a + (b + c)
  {
  }

  lemma PathStands(more: string, rest: string, attrs: seq<string>, base: string)
    requires (forall y | y in attrs :: y in ATTRIBUTES) && '"' !in more && (more == "" || EndsWithSlash(more))
    ensures SinglePass(more + rest, attrs, base) == more + SinglePass(rest, attrs, base)
  {
    forall y | y in attrs ensures Sealed(more, Absolute(y)) { PathIsSealed(more, y); }
    SinglePassCopies(more, rest, attrs, base);
  }

  lemma IpfsValueStands(x: string, rest: string, attrs: seq<string>, base: string)
    requires x in attrs && (forall y | y in attrs :: y in ATTRIBUTES)
    ensures SinglePass(Ipfs(x) + rest, attrs, base) == Ipfs(x) + SinglePass(rest, attrs, base)
  {
    var s := Ipfs(x) + rest;
    TokenIsFound(s, x, attrs);
    assert s[|Ipfs(x)|..] == rest;
  }

  lemma CopiedCharStands(c: char, rest: string, attrs: seq<string>, base: string)
    requires (forall y | y in attrs :: y in ATTRIBUTES) && TokenAt([c] + rest, attrs) == None
    ensures var out := SinglePass(rest, attrs, base);
            SinglePass([c] + out, attrs, base) == [c] + SinglePass(out, attrs, base)
  {
    var out := SinglePass(rest, attrs, base);
    forall y | y in attrs
      ensures !StartsWith([c] + out, Absolute(y))
    {
      forall x | x in attrs ensures NoOverlap(Absolute(y), Opening(x)) {
        Letters(x);
        TokensDoNotOverlap(y, "/", x, "");
        assert Opening(x) + "" == Opening(x);
      }
      StillNoTokenBehindPass(c, rest, attrs, base, Absolute(y));
    }
    assert TokenAt([c] + out, attrs) == None;
    assert ([c] + out)[1..] == out;
  }

  lemma TokenIsFound(s: string, x: string, attrs: seq<string>)
    requires x in attrs && (forall y | y in attrs :: y in ATTRIBUTES) && Ipfs(x) <= s
    ensures TokenAt(s, attrs) == Some(x) && StartsWith(s, Ipfs(x))
  {
    assert s[..|Ipfs(x)|] == Ipfs(x);
    TokenAtOne(s, x);
    AbsoluteIsFound(s, x, attrs);
  }

  lemma AbsoluteIsFound(s: string, x: string, attrs: seq<string>)
    requires x in attrs && (forall y | y in attrs :: y in ATTRIBUTES) && Absolute(x) <= s
    ensures TokenAt(s, attrs) == Some(x) && StartsWith(s, Absolute(x))
  {
    assert s[..|Absolute(x)|] == Absolute(x);
    var t := TokenAt(s, attrs);
    if t.value != x {
      OpeningRestartsNowhere(x, t.value, 0);
      assert Opening(x)[0..] == Opening(x);
      ClashExtends(Opening(x), "/", Opening(t.value), "/");
      MatchExcludesClash(s, Absolute(x), Absolute(t.value));
    }
  }

  lemma PathIsSealed(path: string, attr: string)
    requires attr in ATTRIBUTES && '"' !in path && (path == "" || EndsWithSlash(path))
    ensures Sealed(path, Absolute(attr))
  {
    var b := Absolute(attr);
    assert b[..|b| - 1] == Opening(attr) && b[|b| - 2] == '"';
    if path != "" {
      SlashStopsMatches(path, b);
      forall i | 0 <= i < |path|
        ensures Clash(path[i..], b)
      {
        if |path| - i >= |b| {
          assert path[i..][|b| - 2] == path[i + |b| - 2];
        }
      }
    }
  }
}
