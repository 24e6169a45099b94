/** The text sanitizers applied to every audit event before it is queued. */
module Sanitizer {
  import opened Rows

  // ----- the character classes

  predicate IsControl(c: char) { c < ' ' || c == '\U{7F}' }

  /** strings.TrimSpace: Unicode white space. */
  predicate IsSpace(c: char) {
    c == ' ' || '\U{9}' <= c <= '\U{D}' || c == '\U{85}' || c == '\U{A0}' || c == '\U{1680}' ||
    '\U{2000}' <= c <= '\U{200A}' || c == '\U{2028}' || c == '\U{2029}' || c == '\U{202F}' || c == '\U{205F}' || c == '\U{3000}'
  }

  /** The regular expression class \s. */
  predicate IsBlank(c: char) { c == ' ' || c == '\U{9}' || c == '\U{A}' || c == '\U{C}' || c == '\U{D}' }

  /** The characters html.EscapeString replaces. */
  predicate IsMarkup(c: char) { c == '&' || c == '\'' || c == '<' || c == '>' || c == '"' }

  ghost predicate HasMarkup(s: string) { exists i :: 0 <= i < |s| && IsMarkup(s[i]) }

  // ----- the steps of sanitizeString

  function NotControl(): char -> bool { (c: char) => !IsControl(c) }

  function Strip(s: string): string { Filter(NotControl(), s) }

  function TrimLeft(s: string): string {
    if |s| > 0 && IsSpace(s[0]) then TrimLeft(s[1..]) else s
  }

  function TrimRight(s: string): string {
    if |s| > 0 && IsSpace(s[|s| - 1]) then TrimRight(s[..|s| - 1]) else s
  }

  function Trim(s: string): string { TrimRight(TrimLeft(s)) }

  function Entity(c: char): string {
    if c == '&' then "&amp;"
    else if c == '\'' then "&#39;"
    else if c == '<' then "&lt;"
    else if c == '>' then "&gt;"
    else if c == '"' then "&#34;"
    else [c]
  }

  function Escape(s: string): string {
    if |s| == 0 then "" else Entity(s[0]) + Escape(s[1..])
  }

  function SkipBlanks(s: string): (r: string)
    ensures |r| <= |s|
  {
    if |s| > 0 && IsBlank(s[0]) then SkipBlanks(s[1..]) else s
  }

  function Collapse(s: string): string
    decreases |s|
  {
    if |s| == 0 then ""
    else if IsBlank(s[0]) then " " + Collapse(SkipBlanks(s[1..]))
    else [s[0]] + Collapse(s[1..])
  }

  function SanitizeString(s: string): string { Collapse(Escape(Trim(Strip(s)))) }

  /** The text without its markup treatment: stripped, trimmed, collapsed. */
  function Normalize(s: string): string { Collapse(Trim(Strip(s))) }

  // ----- escaping and collapsing commute

  lemma EntityNeverBlank(c: char)
    requires !IsBlank(c)
    ensures |Entity(c)| > 0 && forall i :: 0 <= i < |Entity(c)| ==> !IsBlank(Entity(c)[i])
  {
  }

  lemma {:induction false} SkipEscaped(s: string)
    ensures SkipBlanks(Escape(s)) == Escape(SkipBlanks(s))
  {
    if |s| > 0 {
      if IsBlank(s[0]) {
        assert Escape(s) == [s[0]] + Escape(s[1..]);
        assert Escape(s)[1..] == Escape(s[1..]);
        SkipEscaped(s[1..]);
      } else {
        EntityNeverBlank(s[0]);
        assert Escape(s)[0] == Entity(s[0])[0];
      }
    }
  }

  lemma {:induction false} CollapsePrefix(x: string, t: string)
    requires forall i :: 0 <= i < |x| ==> !IsBlank(x[i])
    ensures Collapse(x + t) == x + Collapse(t)
  {
    if |x| == 0 {
      assert x + t == t;
    } else {
      assert (x + t)[0] == x[0] && (x + t)[1..] == x[1..] + t;
      CollapsePrefix(x[1..], t);
      assert [x[0]] + (x[1..] + Collapse(t)) == x + Collapse(t);
    }
  }

  lemma {:induction false} CollapseEscaped(s: string)
    ensures Collapse(Escape(s)) == Escape(Collapse(s))
    decreases |s|
  {
    if |s| > 0 {
      if IsBlank(s[0]) {
        var e := Escape(s);
        assert e == [s[0]] + Escape(s[1..]) && e[1..] == Escape(s[1..]);
        SkipEscaped(s[1..]);
        CollapseEscaped(SkipBlanks(s[1..]));
        var c := Collapse(s);
        assert c[0] == ' ' && c[1..] == Collapse(SkipBlanks(s[1..]));
      } else {
        EntityNeverBlank(s[0]);
        CollapsePrefix(Entity(s[0]), Escape(s[1..]));
        CollapseEscaped(s[1..]);
        assert Collapse(s)[1..] == Collapse(s[1..]);
      }
    }
  }

  /** Sanitizing is escaping the normalized text. */
  lemma SanitizeIsEscapeOfNormalized(s: string)
    ensures SanitizeString(s) == Escape(Normalize(s))
  {
    CollapseEscaped(Trim(Strip(s)));
  }

  // ----- decoding

  function Starts(s: string, prefix: string): bool { prefix <= s }

  function Unescape(s: string): string {
    if |s| == 0 then ""
    else if Starts(s, "&amp;") then "&" + Unescape(s[5..])
    else if Starts(s, "&#39;") then "'" + Unescape(s[5..])
    else if Starts(s, "&lt;") then "<" + Unescape(s[4..])
    else if Starts(s, "&gt;") then ">" + Unescape(s[4..])
    else if Starts(s, "&#34;") then "\"" + Unescape(s[5..])
    else [s[0]] + Unescape(s[1..])
  }

  lemma UnescapeEntity(c: char, t: string)
    ensures Unescape(Entity(c) + t) == [c] + Unescape(t)
  {
    var s := Entity(c) + t;
    assert s[|Entity(c)|..] == t;
    EntityStarts(c, t);
    hide Starts;
  }

  lemma Differ(s: string, prefix: string, i: nat)
    requires i < |s| && i < |prefix| && s[i] != prefix[i]
    ensures !Starts(s, prefix)
  {
  }

  /** The text starts with no entity but that of the character, if it has one. */
  lemma EntityStarts(c: char, t: string)
    ensures var s := Entity(c) + t;
            && (Starts(s, "&amp;") <==> c == '&') && (Starts(s, "&#39;") <==> c == '\'')
            && (Starts(s, "&lt;") <==> c == '<') && (Starts(s, "&gt;") <==> c == '>')
            && (Starts(s, "&#34;") <==> c == '"')
  {
    var e, s := Entity(c), Entity(c) + t;
    assert forall i :: 0 <= i < |e| ==> s[i] == e[i];
    if !IsMarkup(c) {
      Differ(s, "&amp;", 0); Differ(s, "&#39;", 0); Differ(s, "&lt;", 0); Differ(s, "&gt;", 0); Differ(s, "&#34;", 0);
    } else {
      assert Starts(s, e);
      if c != '&' { Differ(s, "&amp;", 1); }
      if c != '<' { Differ(s, "&lt;", 1); }
      if c != '>' { Differ(s, "&gt;", 1); }
      if c != '\'' { Differ(s, "&#39;", if c == '"' then 3 else 1); }
      if c != '"' { Differ(s, "&#34;", if c == '\'' then 3 else 1); }
    }
    hide Starts;
  }

  lemma {:induction false} UnescapeEscape(s: string)
    ensures Unescape(Escape(s)) == s
  {
    if |s| > 0 {
      UnescapeEntity(s[0], Escape(s[1..]));
      UnescapeEscape(s[1..]);
    }
  }

  lemma {:induction false} EscapeHasNoRawMarkup(s: string)
    ensures forall i :: 0 <= i < |Escape(s)| && IsMarkup(Escape(s)[i]) ==> Escape(s)[i] == '&'
  {
    if |s| > 0 { EscapeHasNoRawMarkup(s[1..]); }
  }

  /** Nothing a reader needs is lost and nothing a browser would act on is left:
      the five entities decode to the normalized text, and no angle bracket or
      quote survives. */
  lemma SanitizedDecodes(s: string)
    ensures Unescape(SanitizeString(s)) == Normalize(s)
    ensures forall i :: 0 <= i < |SanitizeString(s)| ==> SanitizeString(s)[i] !in {'<', '>', '\'', '"'}
  {
    SanitizeIsEscapeOfNormalized(s);
    UnescapeEscape(Normalize(s));
    EscapeHasNoRawMarkup(Normalize(s));
  }

  // ----- normal texts

  ghost predicate Clean(s: string) { forall i :: 0 <= i < |s| ==> !IsControl(s[i]) }

  ghost predicate Trimmed(s: string) { |s| > 0 ==> !IsSpace(s[0]) && !IsSpace(s[|s| - 1]) }

  ghost predicate SingleBlanks(s: string) { forall i :: 0 < i < |s| ==> !(IsBlank(s[i - 1]) && IsBlank(s[i])) }

  ghost predicate Normal(s: string) { Clean(s) && Trimmed(s) && SingleBlanks(s) }

  lemma {:induction false} TrimLeftSuffix(s: string) returns (k: nat)
    ensures k <= |s| && TrimLeft(s) == s[k..]
    ensures TrimLeft(s) == "" || !IsSpace(TrimLeft(s)[0])
    ensures |s| > 0 && !IsSpace(s[0]) ==> TrimLeft(s) == s
    ensures forall i :: 0 <= i < k ==> IsSpace(s[i])
  {
    if |s| > 0 && IsSpace(s[0]) {
      var j := TrimLeftSuffix(s[1..]);
      k := j + 1;
      assert s[1..][j..] == s[k..];
      assert forall i :: 0 < i < k ==> s[i] == s[1..][i - 1];
    } else {
      k := 0;
    }
  }

  lemma {:induction false} TrimRightPrefix(s: string) returns (k: nat)
    ensures k <= |s| && TrimRight(s) == s[..k]
    ensures TrimRight(s) == "" || !IsSpace(TrimRight(s)[|TrimRight(s)| - 1])
    ensures |s| > 0 && !IsSpace(s[|s| - 1]) ==> TrimRight(s) == s
    ensures forall i :: k <= i < |s| ==> IsSpace(s[i])
  {
    if |s| > 0 && IsSpace(s[|s| - 1]) {
      k := TrimRightPrefix(s[..|s| - 1]);
      assert s[..|s| - 1][..k] == s[..k];
    } else {
      k := |s|;
      assert s[..k] == s;
    }
  }

  lemma TrimResult(s: string)
    requires Clean(s)
    ensures Clean(Trim(s)) && Trimmed(Trim(s))
    ensures Trimmed(s) ==> Trim(s) == s
  {
    var k := TrimLeftSuffix(s);
    var t := TrimLeft(s);
    var j := TrimRightPrefix(t);
  }

  lemma StripResult(s: string)
    ensures Clean(Strip(s))
    ensures Clean(s) ==> Strip(s) == s
  {
    FilterMembers(NotControl(), s);
    forall i | 0 <= i < |Strip(s)| ensures !IsControl(Strip(s)[i]) { assert Strip(s)[i] in Strip(s); }
    if Clean(s) {
      forall c | c in s ensures NotControl()(c) { var i :| 0 <= i < |s| && s[i] == c; }
      FilterAll(NotControl(), s);
    }
  }

  lemma {:induction false} SkipBlanksResult(s: string)
    ensures SkipBlanks(s) == "" || !IsBlank(SkipBlanks(s)[0])
    ensures |SkipBlanks(s)| <= |s| && SkipBlanks(s) == s[|s| - |SkipBlanks(s)|..]
  {
    if |s| > 0 && IsBlank(s[0]) {
      SkipBlanksResult(s[1..]);
      assert s[1..][|s| - 1 - |SkipBlanks(s)|..] == s[|s| - |SkipBlanks(s)|..];
      assert SkipBlanks(s) == s[|s| - |SkipBlanks(s)|..];
    } else {
      assert s[0..] == s;
    }
  }

  lemma CleanJoin(a: string, b: string)
    ensures Clean(a + b) <==> Clean(a) && Clean(b)
  {
    if Clean(a + b) {
      assert forall i :: 0 <= i < |a| ==> a[i] == (a + b)[i];
      assert forall i :: 0 <= i < |b| ==> b[i] == (a + b)[|a| + i];
    }
  }

  lemma SingleTail(s: string)
    requires |s| > 0 && SingleBlanks(s)
    ensures SingleBlanks(s[1..])
    ensures |s| > 1 ==> !(IsBlank(s[0]) && IsBlank(s[1]))
  {
    assert forall i :: 0 <= i < |s| - 1 ==> s[1..][i] == s[i + 1];
  }

  lemma BlankJoin(a: string, b: string)
    requires SingleBlanks(a) && SingleBlanks(b)
    requires |a| > 0 && |b| > 0 ==> !(IsBlank(a[|a| - 1]) && IsBlank(b[0]))
    ensures SingleBlanks(a + b)
  {
  }

  lemma CollapseHead(s: string)
    requires |s| > 0
    ensures |Collapse(s)| > 0 && Collapse(s)[0] == (if IsBlank(s[0]) then ' ' else s[0])
  {
  }

  /** Whatever the text, no two blanks end up side by side. */
  lemma {:induction false} CollapseSingles(s: string)
    ensures SingleBlanks(Collapse(s))
    decreases |s|
  {
    if |s| > 0 {
      var rest := if IsBlank(s[0]) then SkipBlanks(s[1..]) else s[1..];
      var first := if IsBlank(s[0]) then " " else [s[0]];
      SkipBlanksResult(s[1..]);
      assert SingleBlanks(first);
      assert Collapse(s) == first + Collapse(rest);
      CollapseSingles(rest);
      if |rest| > 0 { CollapseHead(rest); }
      hide Collapse, SkipBlanks, SingleBlanks;
      BlankJoin(first, Collapse(rest));
    }
  }

  lemma {:induction false} CollapseClean(s: string)
    requires Clean(s)
    ensures Clean(Collapse(s))
    decreases |s|
  {
    if |s| > 0 {
      var rest := if IsBlank(s[0]) then SkipBlanks(s[1..]) else s[1..];
      var first := if IsBlank(s[0]) then " " else [s[0]];
      assert Collapse(s) == first + Collapse(rest);
      assert Clean(first);
      SkipBlanksResult(s[1..]);
      var gone := s[..|s| - |rest|];
      assert s == gone + rest;
      CleanJoin(gone, rest);
      CollapseClean(rest);
      hide Collapse, SkipBlanks, Clean;
      CleanJoin(first, Collapse(rest));
    }
  }

  lemma {:induction false} CollapseLast(s: string)
    requires |s| > 0 && !IsBlank(s[|s| - 1])
    ensures |Collapse(s)| > 0 && Collapse(s)[|Collapse(s)| - 1] == s[|s| - 1]
    decreases |s|
  {
    if IsBlank(s[0]) {
      var r := SkipBlanks(s[1..]);
      SkipBlanksResult(s[1..]);
      LastNotSkipped(s[1..]);
      assert Collapse(s) == " " + Collapse(r);
      assert r == s[|s| - |r|..];
      CollapseLast(r);
    } else if |s| == 1 {
      assert s[1..] == "";
      assert Collapse(s) == [s[0]];
    } else {
      assert Collapse(s) == [s[0]] + Collapse(s[1..]);
      CollapseLast(s[1..]);
    }
  }

  /** Collapsing a clean, trimmed text gives a normal one. */
  lemma CollapseNormal(s: string)
    requires Clean(s) && Trimmed(s)
    ensures Normal(Collapse(s))
  {
    CollapseClean(s);
    CollapseSingles(s);
    if |s| > 0 {
      CollapseHead(s);
      if !IsBlank(s[|s| - 1]) { CollapseLast(s); }
      hide Collapse, Clean, SingleBlanks;
    }
  }

  lemma {:induction false} LastNotSkipped(s: string)
    ensures |s| > 0 && !IsBlank(s[|s| - 1]) ==> |SkipBlanks(s)| > 0
  {
    if |s| > 1 && IsBlank(s[0]) { LastNotSkipped(s[1..]); }
  }

  lemma {:induction false} CollapseSingle(s: string)
    requires Clean(s) && SingleBlanks(s)
    ensures Collapse(s) == s
    decreases |s|
  {
    if |s| > 0 {
      assert s == [s[0]] + s[1..];
      assert forall i :: 0 <= i < |s| - 1 ==> s[1..][i] == s[i + 1];
      CollapseSingle(s[1..]);
      if IsBlank(s[0]) {
        assert SkipBlanks(s[1..]) == s[1..] by { if |s| > 1 { assert !IsBlank(s[1]); } }
      }
    }
  }

  lemma NormalizeResult(s: string)
    ensures Normal(Normalize(s))
    ensures Normal(s) ==> Normalize(s) == s
  {
    StripResult(s);
    TrimResult(Strip(s));
    CollapseNormal(Trim(Strip(s)));
    if Normal(s) { CollapseSingle(s); }
  }

  // ----- idempotence

  lemma EscapeFirst(s: string)
    requires |s| > 0
    ensures |Entity(s[0])| > 0 && Escape(s) == Entity(s[0]) + Escape(s[1..])
    ensures |s| == 1 ==> Escape(s[1..]) == ""
  {
    assert |Entity(s[0])| > 0;
    hide Entity;
  }

  lemma {:induction false} EscapeLast(t: string, c: char)
    ensures Escape(t + [c]) == Escape(t) + Entity(c)
    ensures |Entity(c)| > 0
  {
    hide Entity;
    if |t| == 0 {
      assert t + [c] == [c] && [c][1..] == "";
      EscapeFirst([c]);
      assert Entity(c) + "" == Entity(c) && "" + Entity(c) == Entity(c);
    } else {
      assert (t + [c])[1..] == t[1..] + [c];
      EscapeLast(t[1..], c);
      assert Entity(t[0]) + (Escape(t[1..]) + Entity(c)) == Entity(t[0]) + Escape(t[1..]) + Entity(c);
    }
  }

  lemma EscapeEnds(s: string)
    ensures |s| > 0 ==> |Escape(s)| > 0 && Escape(s)[0] == Entity(s[0])[0]
    ensures |s| > 0 ==> Escape(s)[|Escape(s)| - 1] == Entity(s[|s| - 1])[|Entity(s[|s| - 1])| - 1]
  {
    if |s| > 0 {
      hide *;
      var t, c := s[..|s| - 1], s[|s| - 1];
      assert s == t + [c];
      EscapeFirst(s);
      EscapeLast(t, c);
    }
  }

  lemma {:induction false} EscapeKeepsClean(s: string)
    requires Clean(s)
    ensures Clean(Escape(s))
  {
    if |s| > 0 {
      assert s == [s[0]] + s[1..];
      CleanJoin([s[0]], s[1..]);
      EscapeKeepsClean(s[1..]);
      assert Clean(Entity(s[0]));
      hide Clean;
      CleanJoin(Entity(s[0]), Escape(s[1..]));
    }
  }

  lemma EntitySingle(c: char)
    ensures SingleBlanks(Entity(c)) && |Entity(c)| > 0
    ensures IsBlank(Entity(c)[0]) <==> IsBlank(c)
    ensures IsBlank(Entity(c)[|Entity(c)| - 1]) <==> IsBlank(c)
  {
  }

  lemma {:induction false} EscapeKeepsBlanks(s: string)
    requires SingleBlanks(s)
    ensures SingleBlanks(Escape(s))
  {
    if |s| > 0 {
      var t := s[1..];
      SingleTail(s);
      EscapeKeepsBlanks(t);
      EscapeEnds(t);
      EntitySingle(s[0]);
      if |t| > 0 { EntitySingle(t[0]); }
      assert Escape(s) == Entity(s[0]) + Escape(t);
      hide Escape, Entity, SingleBlanks, IsBlank;
      BlankJoin(Entity(s[0]), Escape(t));
    }
  }

  lemma EntityTrimmed(c: char)
    requires !IsSpace(c)
    ensures !IsSpace(Entity(c)[0]) && !IsSpace(Entity(c)[|Entity(c)| - 1])
  {
  }

  lemma EscapeOfNormal(n: string)
    requires Normal(n)
    ensures Normal(Escape(n))
  {
    EscapeKeepsClean(n);
    EscapeKeepsBlanks(n);
    if |n| > 0 {
      EscapeEnds(n);
      EntityTrimmed(n[0]);
      EntityTrimmed(n[|n| - 1]);
      hide Escape, Entity, SingleBlanks, Clean, IsSpace;
    }
  }

  lemma {:induction false} EscapeLonger(s: string)
    ensures |Escape(s)| >= |s|
    ensures HasMarkup(s) <==> |Escape(s)| > |s|
    ensures !HasMarkup(s) ==> Escape(s) == s
    ensures HasMarkup(s) ==> HasMarkup(Escape(s))
  {
    if |s| > 0 {
      var t := s[1..];
      EscapeLonger(t);
      assert forall i :: 0 <= i < |t| ==> t[i] == s[i + 1];
      assert HasMarkup(s) <==> IsMarkup(s[0]) || HasMarkup(t) by {
        if HasMarkup(t) { var i :| 0 <= i < |t| && IsMarkup(t[i]); assert IsMarkup(s[i + 1]); }
      }
      if IsMarkup(s[0]) {
        assert IsMarkup(Escape(s)[0]);
      } else if HasMarkup(t) {
        var i :| 0 <= i < |Escape(t)| && IsMarkup(Escape(t)[i]);
        assert Escape(s)[i + 1] == Escape(t)[i];
      } else {
        assert Escape(s) == [s[0]] + t;
      }
    }
  }

  /** Sanitizing twice changes nothing exactly when the normalized text has none
      of the five markup characters; otherwise the ampersands pile up. */
  lemma SanitizeIdempotentIff(s: string)
    ensures SanitizeString(SanitizeString(s)) == SanitizeString(s) <==> !HasMarkup(Normalize(s))
  {
    var n := Normalize(s);
    SanitizeIsEscapeOfNormalized(s);
    NormalizeResult(s);
    EscapeOfNormal(n);
    NormalizeResult(Escape(n));
    SanitizeIsEscapeOfNormalized(Escape(n));
    EscapeLonger(n);
    EscapeLonger(Escape(n));
  }

  // ----- e-mail addresses, IP addresses

  predicate IsAlnum(c: char) { '0' <= c <= '9' || 'a' <= c <= 'z' || 'A' <= c <= 'Z' }

  function EmailChar(): char -> bool {
    (c: char) => IsAlnum(c) || c == '.' || c == '@' || c == '_' || c == '+' || c == '-'
  }

  function IpChar(): char -> bool {
    (c: char) => '0' <= c <= '9' || c == '.' || c == ':'
  }

  function SanitizeEmail(s: string): string { Filter(EmailChar(), SanitizeString(s)) }

  function SanitizeIP(s: string): string { Filter(IpChar(), SanitizeString(s)) }

  /** A class of characters that normalizing leaves alone. */
  ghost predicate Visible(p: char -> bool) {
    forall c :: p(c) ==> !IsControl(c) && !IsSpace(c) && !IsBlank(c)
  }

  /** A class of characters that all of sanitizing leaves alone. */
  ghost predicate Plain(p: char -> bool) {
    Visible(p) && forall c :: p(c) ==> !IsMarkup(c)
  }

  lemma PlainIsNormal(p: char -> bool, s: string)
    requires Plain(p) && forall c :: c in s ==> p(c)
    ensures Normal(s) && !HasMarkup(s)
  {
    forall i | 0 <= i < |s| ensures p(s[i]) { assert s[i] in s; }
    hide IsControl, IsSpace, IsBlank, IsMarkup;
  }

  lemma PlainUntouched(p: char -> bool, s: string)
    requires Plain(p) && forall c :: c in s ==> p(c)
    ensures SanitizeString(s) == s && Filter(p, s) == s
  {
    PlainIsNormal(p, s);
    hide *;
    NormalizeResult(s);
    SanitizeIsEscapeOfNormalized(s);
    EscapeLonger(s);
    FilterAll(p, s);
  }

  /** Keeping only plain characters after sanitizing is idempotent. */
  lemma FilteredSanitizeIdempotent(p: char -> bool, s: string)
    requires Plain(p)
    ensures Filter(p, SanitizeString(Filter(p, SanitizeString(s)))) == Filter(p, SanitizeString(s))
  {
    FilterMembers(p, SanitizeString(s));
    PlainUntouched(p, Filter(p, SanitizeString(s)));
  }

  lemma EmailAndIPIdempotent(s: string)
    ensures SanitizeEmail(SanitizeEmail(s)) == SanitizeEmail(s)
    ensures SanitizeIP(SanitizeIP(s)) == SanitizeIP(s)
  {
    FilteredSanitizeIdempotent(EmailChar(), s);
    FilteredSanitizeIdempotent(IpChar(), s);
  }

  lemma FilterDropped(p: char -> bool, a: string, b: string)
    requires forall i :: 0 <= i < |b| ==> !p(b[i])
    ensures Filter(p, a + b) == Filter(p, a) && Filter(p, b + a) == Filter(p, a)
  {
    FilterAppend(p, a, b);
    FilterAppend(p, b, a);
    forall c | c in b ensures !p(c) { var i :| 0 <= i < |b| && b[i] == c; }
    FilterNone(p, b);
  }

  lemma {:induction false} FilterStrip(p: char -> bool, s: string)
    requires Visible(p)
    ensures Filter(p, Strip(s)) == Filter(p, s)
  {
    if |s| > 0 {
      var t, c := s[..|s| - 1], s[|s| - 1];
      FilterStrip(p, t);
      assert s == t + [c];
      FilterLast(NotControl(), t, c);
      FilterLast(p, t, c);
      FilterLast(p, Strip(t), c);
    }
  }

  lemma FilterTrim(p: char -> bool, s: string)
    requires Visible(p)
    ensures Filter(p, Trim(s)) == Filter(p, s)
  {
    var k := TrimLeftSuffix(s);
    var t := TrimLeft(s);
    assert s == s[..k] + t;
    var j := TrimRightPrefix(t);
    assert t == t[..j] + t[j..];
    assert Trim(s) == t[..j];
    assert forall c :: IsBlank(c) ==> !p(c);
    hide *;
    FilterDropped(p, t, s[..k]);
    FilterDropped(p, t[..j], t[j..]);
  }

  lemma {:induction false} FilterSkip(p: char -> bool, s: string)
    requires Visible(p)
    ensures Filter(p, SkipBlanks(s)) == Filter(p, s)
  {
    if |s| > 0 && IsBlank(s[0]) {
      FilterSkip(p, s[1..]);
      assert s == [s[0]] + s[1..];
      FilterDropped(p, s[1..], [s[0]]);
    }
  }

  lemma {:induction false} FilterCollapse(p: char -> bool, s: string)
    requires Visible(p)
    ensures Filter(p, Collapse(s)) == Filter(p, s)
    decreases |s|
  {
    if |s| > 0 {
      assert s == [s[0]] + s[1..];
      FilterAppend(p, [s[0]], s[1..]);
      if IsBlank(s[0]) {
        var r := SkipBlanks(s[1..]);
        FilterCollapse(p, r);
        FilterSkip(p, s[1..]);
        FilterDropped(p, Collapse(r), " ");
        FilterDropped(p, s[1..], [s[0]]);
      } else {
        FilterCollapse(p, s[1..]);
        FilterAppend(p, [s[0]], Collapse(s[1..]));
      }
    }
  }

  /** Normalizing removes no visible character and reorders none. */
  lemma FilterNormalize(p: char -> bool, s: string)
    requires Visible(p)
    ensures Filter(p, Normalize(s)) == Filter(p, s)
  {
    FilterStrip(p, s);
    FilterTrim(p, Strip(s));
    FilterCollapse(p, Trim(Strip(s)));
  }

  /** The markup characters whose entity contains a character of the class. */
  ghost predicate Leaks(p: char -> bool, s: string) {
    exists i :: 0 <= i < |s| && IsMarkup(s[i]) && Filter(p, Entity(s[i])) != ""
  }

  lemma LeaksCons(p: char -> bool, c: char, t: string)
    ensures Leaks(p, [c] + t) <==> (IsMarkup(c) && Filter(p, Entity(c)) != "") || Leaks(p, t)
  {
    hide Entity, IsMarkup, Filter;
    var s := [c] + t;
    assert s[0] == c && forall i :: 0 <= i < |t| ==> s[i + 1] == t[i];
    if Leaks(p, t) {
      var i :| 0 <= i < |t| && IsMarkup(t[i]) && Filter(p, Entity(t[i])) != "";
      assert IsMarkup(s[i + 1]);
    }
  }

  lemma {:induction false} FilterEscape(p: char -> bool, s: string)
    requires Plain(p)
    ensures |Filter(p, Escape(s))| >= |Filter(p, s)|
    ensures Leaks(p, s) <==> |Filter(p, Escape(s))| > |Filter(p, s)|
    ensures !Leaks(p, s) ==> Filter(p, Escape(s)) == Filter(p, s)
  {
    if |s| > 0 {
      var c, t := s[0], s[1..];
      FilterEscape(p, t);
      assert s == [c] + t;
      assert Escape(s) == Entity(c) + Escape(t);
      LeaksCons(p, c, t);
      FilterAppend(p, [c], t);
      FilterAppend(p, Entity(c), Escape(t));
      if IsMarkup(c) { FilterNone(p, [c]); } else { assert Entity(c) == [c]; }
      hide Escape, Entity, Leaks, IsMarkup, Filter;
    }
  }

  /** The filter alone would do exactly when no entity leaks its own letters or
      digits into the result. */
  lemma FilteredSanitizeIff(p: char -> bool, s: string)
    requires Plain(p)
    ensures Filter(p, SanitizeString(s)) == Filter(p, s) <==> !Leaks(p, Normalize(s))
  {
    SanitizeIsEscapeOfNormalized(s);
    FilterNormalize(p, s);
    FilterEscape(p, Normalize(s));
  }

  /** Normalizing keeps exactly the visible characters of the text. */
  lemma VisibleSurvives(s: string, c: char)
    requires !IsControl(c) && !IsSpace(c) && !IsBlank(c)
    ensures c in Normalize(s) <==> c in s
  {
    var p := (x: char) => x == c;
    FilterNormalize(p, s);
    FilterMembers(p, Normalize(s));
    FilterMembers(p, s);
    assert c in Filter(p, Normalize(s)) <==> c in Filter(p, s);
  }

  lemma EntityLetters(c: char)
    requires IsMarkup(c)
    ensures Filter(EmailChar(), Entity(c)) != ""
    ensures Filter(IpChar(), Entity(c)) != "" <==> c == '\'' || c == '"'
  {
    FilterMembers(EmailChar(), Entity(c));
    FilterMembers(IpChar(), Entity(c));
    assert Entity(c)[2] in Entity(c) && EmailChar()(Entity(c)[2]);
    if c == '\'' || c == '"' {
      assert IpChar()(Entity(c)[2]);
    } else {
      FilterNone(IpChar(), Entity(c));
    }
  }

  lemma MarkupIffMember(s: string)
    ensures HasMarkup(s) <==> exists c :: c in s && IsMarkup(c)
  {
    hide IsMarkup;
    if HasMarkup(s) {
      var i :| 0 <= i < |s| && IsMarkup(s[i]);
      assert s[i] in s;
    }
  }

  /** Every entity leaks a letter or a digit into an e-mail address. */
  lemma EmailLeaks(s: string)
    ensures Leaks(EmailChar(), s) <==> HasMarkup(s)
  {
    forall i | 0 <= i < |s| && IsMarkup(s[i]) ensures Filter(EmailChar(), Entity(s[i])) != "" { EntityLetters(s[i]); }
  }

  /** Only the numeric entities of the two quotes leak into an IP address. */
  lemma IPLeaks(s: string)
    ensures Leaks(IpChar(), s) <==> '\'' in s || '"' in s
  {
    forall i | 0 <= i < |s| && IsMarkup(s[i])
      ensures Filter(IpChar(), Entity(s[i])) != "" <==> s[i] == '\'' || s[i] == '"'
    {
      EntityLetters(s[i]);
    }
  }

  /** The e-mail sanitizer keeps just the allowed characters of the address
      exactly when it holds no markup character; otherwise the letters or digits
      of an entity appear in the result. */
  lemma EmailIsFilterIff(s: string)
    ensures SanitizeEmail(s) == Filter(EmailChar(), s) <==> forall c :: c in s ==> !IsMarkup(c)
  {
    var n := Normalize(s);
    assert Plain(EmailChar());
    forall c: char | IsMarkup(c) ensures c in n <==> c in s { VisibleSurvives(s, c); }
    FilteredSanitizeIff(EmailChar(), s);
    hide Normalize, SanitizeString, Filter, Leaks, HasMarkup, IsMarkup, Plain, EmailChar;
    EmailLeaks(n);
    MarkupIffMember(n);
  }

  /** For an IP address only the quotes leak: their entities are numeric. */
  lemma IPIsFilterIff(s: string)
    ensures SanitizeIP(s) == Filter(IpChar(), s) <==> '\'' !in s && '"' !in s
  {
    var n := Normalize(s);
    assert Plain(IpChar());
    VisibleSurvives(s, '\'');
    VisibleSurvives(s, '"');
    hide Normalize, SanitizeString, Filter, Leaks, IsMarkup, Plain, IpChar;
    FilteredSanitizeIff(IpChar(), s);
    IPLeaks(n);
  }

  // ----- environments

  /** unicode.ToLower, of which only the ASCII part matters here. */
  ghost predicate LowersAscii(lower: char -> char) {
    forall c :: 'a' <= c <= 'z' ==> lower(c) == c
  }

  function ToLower(lower: char -> char, s: string): string {
    seq(|s|, i requires 0 <= i < |s| => lower(s[i]))
  }

  function Canonical(env: string): string {
    if env == "prod" || env == "production" then "production"
    else if env == "staging" || env == "stage" || env == "homolog" || env == "homologation" then "staging"
    else if env == "dev" || env == "development" then "development"
    else if env == "test" || env == "testing" then "testing"
    else if env == "local" then "local"
    else "development"
  }

  function SanitizeEnvironment(lower: char -> char, env: string): string {
    Canonical(ToLower(lower, SanitizeString(env)))
  }

  /** validateEnvironment: a letter or digit, then up to 99 letters, digits,
      hyphens, underscores and dots. */
  predicate ValidEnvironment(env: string) {
    1 <= |env| <= 100 && IsAlnum(env[0]) &&
    forall i :: 0 < i < |env| ==> IsAlnum(env[i]) || env[i] == '-' || env[i] == '_' || env[i] == '.'
  }

  function LowerLetter(): char -> bool { (c: char) => 'a' <= c <= 'z' }

  ghost predicate LowerWord(w: string) { forall i :: 0 <= i < |w| ==> 'a' <= w[i] <= 'z' }

  lemma LowerWordPlain(w: string)
    requires LowerWord(w)
    ensures Plain(LowerLetter()) && forall c :: c in w ==> LowerLetter()(c)
  {
  }

  lemma LowerWordStays(lower: char -> char, w: string)
    requires LowersAscii(lower) && LowerWord(w)
    ensures ToLower(lower, SanitizeString(w)) == w
  {
    assert ToLower(lower, w) == w;
    hide *;
    LowerWordPlain(w);
    PlainUntouched(LowerLetter(), w);
  }

  lemma CanonicalNames(env: string)
    ensures var e := Canonical(env);
            (e == "production" || e == "staging" || e == "development" || e == "testing" || e == "local") &&
            LowerWord(e) && Canonical(e) == e && ValidEnvironment(e)
  {
    var e := Canonical(env);
    assert e == "production" || e == "staging" || e == "development" || e == "testing" || e == "local";
    assert LowerWord(e);
    assert Canonical(e) == e;
    hide Canonical;
  }

  /** Sanitized environments are one of five names, stay themselves when
      sanitized again, and always pass the validator. */
  lemma EnvironmentCanonical(lower: char -> char, env: string)
    requires LowersAscii(lower)
    ensures var e := SanitizeEnvironment(lower, env);
            (e == "production" || e == "staging" || e == "development" || e == "testing" || e == "local") &&
            SanitizeEnvironment(lower, e) == e && ValidEnvironment(e)
  {
    hide SanitizeString, ToLower, Canonical, LowerWord, LowersAscii, ValidEnvironment;
    var e := SanitizeEnvironment(lower, env);
    CanonicalNames(ToLower(lower, SanitizeString(env)));
    LowerWordStays(lower, e);
  }
}
