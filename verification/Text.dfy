/** Escaping for HTML and domain labels (gateway/src/lib.rs). */
module Text {

  import opened Common
  import H = HtmlRewrite

  // ── Escaping ─────────────────────────────────────────────────────

  /** Five replacements, one after the other over the whole string. */
  function EscapeHtml(s: string): string {
    H.Replace(H.Replace(H.Replace(H.Replace(H.Replace(s,
      "&", "&amp;"), "<", "&lt;"), ">", "&gt;"), "\"", "&quot;"), "'", "&#x27;")
  }

  function Entity(c: char): string {
    match c
    case '&' => "&amp;"
    case '<' => "&lt;"
    case '>' => "&gt;"
    case '"' => "&quot;"
    case '\'' => "&#x27;"
    case _ => [c]
  }

  /** Character by character. */
  function Escaped(s: string): string {
    if s == "" then "" else Entity(s[0]) + Escaped(s[1..])
  }

  predicate IsSpecial(c: char) { c in "&<>\"'" }

  /** The character that an entity at the start of the text stands for. */
  function EntityAt(s: string): (r: Option<char>)
    ensures r.Some? ==> IsSpecial(r.value) && H.StartsWith(s, Entity(r.value))
  {
    if H.StartsWith(s, Entity('&')) then Some('&')
    else if H.StartsWith(s, Entity('<')) then Some('<')
    else if H.StartsWith(s, Entity('>')) then Some('>')
    else if H.StartsWith(s, Entity('"')) then Some('"')
    else if H.StartsWith(s, Entity('\'')) then Some('\'')
    else None
  }

  /** What a browser makes of the text: the five entities stand for their characters. */
  function Unescape(s: string): string
    decreases |s|
  {
    if s == "" then ""
    else match EntityAt(s)
      case Some(c) => [c] + Unescape(s[|Entity(c)|..])
      case None => [s[0]] + Unescape(s[1..])
  }

  /** Replacing a single character, one position at a time. */
  function Swap(s: string, c: char, rep: string): string {
    if s == "" then "" else (if s[0] == c then rep else [s[0]]) + Swap(s[1..], c, rep)
  }

  lemma {:induction false} ReplaceIsSwap(s: string, c: char, rep: string)
    ensures H.Replace(s, [c], rep) == Swap(s, c, rep)
    decreases |s|
  {
    if s != "" {
      assert H.StartsWith(s, [c]) <==> s[0] == c;
      ReplaceIsSwap(s[1..], c, rep);
    }
  }

  lemma {:induction false} SwapConcat(a: string, b: string, c: char, rep: string)
    ensures Swap(a + b, c, rep) == Swap(a, c, rep) + Swap(b, c, rep)
    decreases |a|
  {
    if a == "" {
      assert a + b == b;
    } else {
      assert (a + b)[1..] == a[1..] + b;
      SwapConcat(a[1..], b, c, rep);
    }
  }

  lemma {:induction false} SwapAbsent(s: string, c: char, rep: string)
    requires c !in s
    ensures Swap(s, c, rep) == s
    decreases |s|
  {
    if s != "" {
      SwapAbsent(s[1..], c, rep);
    }
  }

  /** A replacement leaves alone what an earlier one has written, and applies to the rest of the string. */
  lemma SwapAfter(x: string, rest: string, c: char, rep: string)
    requires c !in x
    ensures Swap(x + rest, c, rep) == x + Swap(rest, c, rep)
  {
    SwapConcat(x, rest, c, rep);
    SwapAbsent(x, c, rep);
  }

  lemma SwapHit(rest: string, c: char, rep: string)
    ensures Swap([c] + rest, c, rep) == rep + Swap(rest, c, rep)
  {
    assert ([c] + rest)[1..] == rest;
  }

  function Swapped(s: string): string {
    Swap(Swap(Swap(Swap(Swap(s, '&', "&amp;"), '<', "&lt;"), '>', "&gt;"), '"', "&quot;"), '\'', "&#x27;")
  }

  lemma EscapeIsSwapped(s: string)
    ensures EscapeHtml(s) == Swapped(s)
  {
    var a := Swap(s, '&', "&amp;");
    var b := Swap(a, '<', "&lt;");
    var c := Swap(b, '>', "&gt;");
    var d := Swap(c, '"', "&quot;");
    ReplaceIsSwap(s, '&', "&amp;");
    ReplaceIsSwap(a, '<', "&lt;");
    ReplaceIsSwap(b, '>', "&gt;");
    ReplaceIsSwap(c, '"', "&quot;");
    ReplaceIsSwap(d, '\'', "&#x27;");
  }

  lemma SwappedStep(c: char, rest: string)
    ensures Swapped([c] + rest) == Entity(c) + Swapped(rest)
  {
    var r1 := Swap(rest, '&', "&amp;");
    var r2 := Swap(r1, '<', "&lt;");
    var r3 := Swap(r2, '>', "&gt;");
    var r4 := Swap(r3, '"', "&quot;");
    var x1 := if c == '&' then "&amp;" else [c];
    var x2 := if c == '<' then "&lt;" else x1;
    var x3 := if c == '>' then "&gt;" else x2;
    var x4 := if c == '"' then "&quot;" else x3;
    if c == '&' { SwapHit(rest, '&', "&amp;"); } else { SwapAfter([c], rest, '&', "&amp;"); }
    if c == '<' { SwapHit(r1, '<', "&lt;"); } else { SwapAfter(x1, r1, '<', "&lt;"); }
    if c == '>' { SwapHit(r2, '>', "&gt;"); } else { SwapAfter(x2, r2, '>', "&gt;"); }
    if c == '"' { SwapHit(r3, '"', "&quot;"); } else { SwapAfter(x3, r3, '"', "&quot;"); }
    if c == '\'' { SwapHit(r4, '\'', "&#x27;"); } else { SwapAfter(x4, r4, '\'', "&#x27;"); }
  }

  /** The five whole-string replacements, in this order, escape each character once. */
  lemma {:induction false} EscapingIsCharacterwise(s: string)
    ensures EscapeHtml(s) == Escaped(s)
    decreases |s|
  {
    EscapeIsSwapped(s);
    if s != "" {
      assert s == [s[0]] + s[1..];
      SwappedStep(s[0], s[1..]);
      EscapeIsSwapped(s[1..]);
      EscapingIsCharacterwise(s[1..]);
    }
  }

  lemma EntityLeads(c: char, rest: string)
    ensures H.StartsWith(Entity(c) + rest, Entity(c)) && (Entity(c) + rest)[|Entity(c)|..] == rest
  {
  }

  lemma OtherEntity(c: char, rest: string, d: char)
    requires c != d && IsSpecial(d)
    ensures !H.StartsWith(Entity(c) + rest, Entity(d))
  {
    var k := if IsSpecial(c) then 1 else 0;
    assert Entity(c)[k] != Entity(d)[k];
    assert H.Clash(Entity(c), Entity(d));
    H.ClashPreventsMatch(Entity(c), rest, Entity(d));
  }

  lemma EntityAtEntity(c: char, rest: string)
    ensures EntityAt(Entity(c) + rest) == if IsSpecial(c) then Some(c) else None
  {
    EntityLeads(c, rest);
    forall d | d != c && IsSpecial(d)
      ensures !H.StartsWith(Entity(c) + rest, Entity(d))
    {
      OtherEntity(c, rest, d);
    }
  }

  lemma UnescapeStep(c: char, rest: string)
    ensures Unescape(Entity(c) + rest) == [c] + Unescape(rest)
  {
    EntityLeads(c, rest);
    EntityAtEntity(c, rest);
    assert !IsSpecial(c) ==> Entity(c) == [c];
  }

  lemma {:induction false} EscapedHasNoMarkup(s: string, c: char)
    requires c in Escaped(s)
    ensures c !in "<>\"'"
    decreases |s|
  {
    if c !in Entity(s[0]) {
      EscapedHasNoMarkup(s[1..], c);
    }
  }

  /** No markup character is left in what is sent. */
  lemma EscapingRemovesMarkup(s: string, c: char)
    requires c in EscapeHtml(s)
    ensures c !in "<>\"'"
  {
    EscapingIsCharacterwise(s);
    EscapedHasNoMarkup(s, c);
  }

  /** The reader gets back exactly the text. */
  lemma {:induction false} EscapingIsUndone(s: string)
    ensures Unescape(EscapeHtml(s)) == s
    decreases |s|
  {
    EscapingIsCharacterwise(s);
    if s != "" {
      EscapingIsUndone(s[1..]);
      EscapingIsCharacterwise(s[1..]);
      UnescapeStep(s[0], Escaped(s[1..]));
    }
  }

  /** It is not idempotent: escaping again changes the text exactly when there was something to escape. */
  lemma EscapingTwiceExactlyWhen(s: string)
    ensures EscapeHtml(EscapeHtml(s)) == EscapeHtml(s) <==> forall c | c in s :: !IsSpecial(c)
  {
    EscapingIsUndone(s);
    EscapingIsUndone(EscapeHtml(s));
    EscapingIsCharacterwise(s);
    EscapedIsPlainExactlyWhen(s);
  }

  lemma {:induction false} EscapedIsPlainExactlyWhen(s: string)
    ensures Escaped(s) == s <==> forall c | c in s :: !IsSpecial(c)
    ensures |Escaped(s)| >= |s|
    decreases |s|
  {
    if s != "" {
      EscapedIsPlainExactlyWhen(s[1..]);
      if IsSpecial(s[0]) {
        assert |Escaped(s)| > |s|;
      } else {
        assert Escaped(s)[1..] == Escaped(s[1..]);
      }
    }
  }

  // ── Domain labels ────────────────────────────────────────────────

  const MAX_LABEL: nat := 40

  predicate IsUpper(c: char) { 'A' <= c <= 'Z' }

  type Lowered = s: string | forall c | c in s :: !IsUpper(c) witness ""

  /** What the standard library makes of characters outside ASCII; never an ASCII capital. */
  const LowerUnicode: char -> Lowered

  function LowerChar(c: char): Lowered {
    if IsUpper(c) then [c - 'A' + 'a'] else if c < 128 as char then [c] else LowerUnicode(c)
  }

  function ToLower(s: string): Lowered {
    if s == "" then "" else LowerChar(s[0]) + ToLower(s[1..])
  }

  predicate IsLabelChar(c: char) { 'a' <= c <= 'z' || IsUpper(c) || '0' <= c <= '9' || c == '-' }

  function Hyphenated(s: string): (r: string)
    ensures |r| == |s| && forall i :: 0 <= i < |s| ==> r[i] == if IsLabelChar(s[i]) then s[i] else '-'
  {
    if s == "" then "" else [if IsLabelChar(s[0]) then s[0] else '-'] + Hyphenated(s[1..])
  }

  function TrimStart(s: string): string { if s != "" && s[0] == '-' then TrimStart(s[1..]) else s }

  function TrimEnd(s: string): string { if s != "" && s[|s| - 1] == '-' then TrimEnd(s[..|s| - 1]) else s }

  function Shortened(s: string): string { TrimEnd(if |s| > MAX_LABEL then s[..MAX_LABEL] else s) }

  function SanitizeLabel(name: string): string {
    var kept := Shortened(TrimEnd(TrimStart(Hyphenated(ToLower(name)))));
    if kept == "" then "site" else kept
  }

  ghost predicate IsLabel(s: string) {
    && 0 < |s| <= MAX_LABEL && s[0] != '-' && s[|s| - 1] != '-'
    && forall i :: 0 <= i < |s| ==> IsLabelChar(s[i]) && !IsUpper(s[i])
  }

  lemma {:induction false} TrimEndIs(s: string)
    ensures TrimEnd(s) <= s && (TrimEnd(s) != "" ==> TrimEnd(s)[|TrimEnd(s)| - 1] != '-')
    decreases |s|
  {
    if s != "" && s[|s| - 1] == '-' {
      TrimEndIs(s[..|s| - 1]);
    }
  }

  lemma {:induction false} TrimStartIs(s: string)
    ensures |TrimStart(s)| <= |s| && TrimStart(s) == s[|s| - |TrimStart(s)|..]
    ensures TrimStart(s) != "" ==> TrimStart(s)[0] != '-'
    decreases |s|
  {
    if s != "" && s[0] == '-' {
      TrimStartIs(s[1..]);
    }
  }

  /** Any name at all becomes a label; cutting it to length comes before the last trimming, so that a hyphen
      at the cut does not stay. */
  lemma SanitizedIsLabel(name: string)
    ensures IsLabel(SanitizeLabel(name))
  {
    KeptIsPrefix(Hyphenated(ToLower(name)));
  }

  lemma KeptIsPrefix(whole: string)
    requires forall i :: 0 <= i < |whole| ==> IsLabelChar(whole[i]) && !IsUpper(whole[i])
    ensures var kept := Shortened(TrimEnd(TrimStart(whole))); kept != "" ==> IsLabel(kept)
  {
    var front := TrimStart(whole);
    TrimStartIs(whole);
    TrimEndIs(front);
    ShortenedIs(TrimEnd(front));
    PrefixIsLabel(front, Shortened(TrimEnd(front)));
  }

  lemma ShortenedIs(s: string)
    ensures var kept := Shortened(s);
            kept <= s && |kept| <= MAX_LABEL && (kept != "" ==> kept[|kept| - 1] != '-')
  {
    TrimEndIs(if |s| > MAX_LABEL then s[..MAX_LABEL] else s);
  }

  lemma PrefixIsLabel(front: string, kept: string)
    requires kept <= front && |kept| <= MAX_LABEL
    requires forall i :: 0 <= i < |front| ==> IsLabelChar(front[i]) && !IsUpper(front[i])
    requires front != "" ==> front[0] != '-'
    requires kept != "" ==> kept[|kept| - 1] != '-'
    ensures kept != "" ==> IsLabel(kept)
  {
  }

  /** A name that already is a label is left as it is. */
  lemma LabelsAreKept(name: string)
    requires IsLabel(name)
    ensures SanitizeLabel(name) == name
  {
    LowerCaseIsKept(name);
    assert Hyphenated(name) == name;
  }

  lemma {:induction false} LowerCaseIsKept(s: string)
    requires forall i :: 0 <= i < |s| ==> IsLabelChar(s[i]) && !IsUpper(s[i])
    ensures ToLower(s) == s
    decreases |s|
  {
    if s != "" {
      LowerCaseIsKept(s[1..]);
    }
  }

  /** Sanitizing twice is sanitizing once. */
  lemma SanitizingIsIdempotent(name: string)
    ensures SanitizeLabel(SanitizeLabel(name)) == SanitizeLabel(name)
  {
    SanitizedIsLabel(name);
    LabelsAreKept(SanitizeLabel(name));
  }
}
