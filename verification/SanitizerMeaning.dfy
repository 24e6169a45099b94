/** What sanitized texts are, told on the characters of the text. */
module SanitizerMeaning {
  import opened Counting
  import opened Rows
  import opened Sanitizer

  ghost predicate ControlCode(c: char) { c as int < 32 || c as int == 127 }

  /** The code points Unicode lists as white space. */
  ghost predicate WhiteSpace(c: char) {
    var n := c as int;
    9 <= n <= 13 || n == 0x20 || n == 0x85 || n == 0xA0 || n == 0x1680 || 0x2000 <= n <= 0x200A ||
    n == 0x2028 || n == 0x2029 || n == 0x202F || n == 0x205F || n == 0x3000
  }

  ghost function NoControl(s: string): set<int> { set i | 0 <= i < |s| && !ControlCode(s[i]) }

  ghost predicate Repeats(s: string, i: nat)
    requires i < |s|
  {
    i > 0 && s[i - 1] == ' ' && s[i] == ' '
  }

  /** All but a blank after a blank. */
  ghost function NotRepeated(s: string): set<int> { set i | 0 <= i < |s| && !Repeats(s, i) }

  /** The text between the outer white space. */
  ghost predicate Middle(s: string, a: int, b: int) {
    && 0 <= a <= b <= |s|
    && (forall i :: 0 <= i < a || b <= i < |s| ==> WhiteSpace(s[i]))
    && (a < b ==> !WhiteSpace(s[a]) && !WhiteSpace(s[b - 1]))
  }

  // ----- collapsing, character by character

  lemma {:induction false} SkipAppend(s: string, c: char)
    ensures SkipBlanks(s + [c]) == if SkipBlanks(s) == "" && IsBlank(c) then "" else SkipBlanks(s) + [c]
    ensures SkipBlanks(s) == "" ==> |s| == 0 || IsBlank(s[|s| - 1])
  {
    if |s| == 0 {
      assert s + [c] == [c] && [c][1..] == "";
    } else {
      assert (s + [c])[0] == s[0] && (s + [c])[1..] == s[1..] + [c];
      if IsBlank(s[0]) { SkipAppend(s[1..], c); }
    }
  }

  /** What the next character adds to a collapsed text. */
  function Added(s: string, c: char): string {
    if !IsBlank(c) then [c] else if |s| > 0 && IsBlank(s[|s| - 1]) then "" else " "
  }

  lemma CollapseFirst(s: string)
    requires |s| > 0
    ensures IsBlank(s[0]) ==> Collapse(s) == " " + Collapse(SkipBlanks(s[1..]))
    ensures !IsBlank(s[0]) ==> Collapse(s) == [s[0]] + Collapse(s[1..])
  {
  }

  lemma CollapseEnd()
    ensures Collapse("") == "" && SkipBlanks("") == ""
  {
  }

  lemma AddedLast(s: string, t: string, c: char)
    requires |s| > 0 && |t| > 0 && s[|s| - 1] == t[|t| - 1]
    ensures Added(s, c) == Added(t, c)
  {
    hide IsBlank;
  }

  lemma {:induction false} CollapseAppend(s: string, c: char)
    ensures Collapse(s + [c]) == Collapse(s) + Added(s, c)
    decreases |s|
  {
    CollapseEnd();
    if |s| == 0 {
      CollapseFirst([c]);
      assert s + [c] == [c] && [c][1..] == "";
      hide Collapse, SkipBlanks, IsBlank;
    } else {
      CollapseFirst(s);
      CollapseFirst(s + [c]);
      assert (s + [c])[0] == s[0] && (s + [c])[1..] == s[1..] + [c];
      if IsBlank(s[0]) { AfterBlank(s, c); } else { AfterVisible(s, c); }
      hide *;
    }
  }

  lemma AfterVisible(s: string, c: char)
    requires |s| > 0 && !IsBlank(s[0])
    ensures [s[0]] + Collapse(s[1..] + [c]) == [s[0]] + Collapse(s[1..]) + Added(s, c)
    decreases |s|, 0
  {
    CollapseAppend(s[1..], c);
    if |s| > 1 {
      AddedLast(s, s[1..], c);
    }
    hide Collapse, IsBlank;
  }

  lemma AfterBlank(s: string, c: char)
    requires |s| > 0 && IsBlank(s[0])
    ensures " " + Collapse(SkipBlanks(s[1..] + [c])) == " " + Collapse(SkipBlanks(s[1..])) + Added(s, c)
    decreases |s|, 0
  {
    var t := s[1..];
    var r := SkipBlanks(t);
    SkipAppend(t, c);
    SkipBlanksResult(t);
    CollapseEnd();
    hide Collapse, SkipBlanks, IsBlank;
    if r != "" {
      CollapseAppend(r, c);
      AddedLast(s, r, c);
    } else {
      assert t == "" || t[|t| - 1] == s[|s| - 1];
      CollapseAppend(r, c);
    }
  }

  lemma NotRepeatedLast(t: string, c: char)
    ensures NotRepeated(t + [c]) == NotRepeated(t) + if |t| > 0 && t[|t| - 1] == ' ' && c == ' ' then {} else {|t|}
  {
    var s := t + [c];
    assert forall i :: 0 <= i < |t| ==> s[i] == t[i];
    assert forall i :: 0 <= i < |t| ==> Repeats(s, i) == Repeats(t, i);
    assert s[|t|] == c && Repeats(s, |t|) == (|t| > 0 && t[|t| - 1] == ' ' && c == ' ');
    hide Repeats;
  }

  lemma BlankIsSpace(c: char)
    requires !IsControl(c)
    ensures IsBlank(c) <==> c == ' '
  {
  }

  lemma {:induction false} CollapseLists(s: string) returns (idx: seq<int>)
    requires Clean(s)
    ensures Lists(idx, NotRepeated(s)) && |idx| == |Collapse(s)|
    ensures forall k :: 0 <= k < |idx| ==> 0 <= idx[k] < |s| && Collapse(s)[k] == s[idx[k]]
  {
    if |s| == 0 {
      idx := [];
    } else {
      var t, c := s[..|s| - 1], s[|s| - 1];
      assert s == t + [c];
      CleanJoin(t, [c]);
      var front := CollapseLists(t);
      CollapseAppend(t, c);
      NotRepeatedLast(t, c);
      BlankIsSpace(c);
      if |t| > 0 { BlankIsSpace(t[|t| - 1]); }
      assert forall i :: i in NotRepeated(t) ==> i < |t|;
      hide Collapse, NotRepeated, Lists, Clean, IsBlank, IsControl;
      if Added(t, c) == "" {
        assert NotRepeated(t) + {} == NotRepeated(t);
        idx := front;
      } else {
        ListsExtend(front, NotRepeated(t), |t|);
        idx := front + [|t|];
      }
    }
  }

  lemma CollapsePicks(s: string)
    requires Clean(s)
    ensures Picks(s, NotRepeated(s), Collapse(s))
  {
    var idx := CollapseLists(s);
    hide Collapse, NotRepeated, Lists;
  }

  // ----- the whole text

  lemma StripPicks(s: string)
    ensures Picks(s, NoControl(s), Strip(s))
  {
    FilterPicks(NotControl(), s);
    assert Chosen(NotControl(), s) == NoControl(s);
    hide Filter, Picks;
  }

  lemma SpaceIsWhite(c: char)
    ensures IsSpace(c) <==> WhiteSpace(c)
  {
  }

  lemma TrimMiddle(s: string) returns (a: int, b: int)
    ensures Middle(s, a, b) && Trim(s) == s[a..b]
  {
    hide IsSpace, WhiteSpace, TrimLeft, TrimRight;
    var k := TrimLeftSuffix(s);
    var t := TrimLeft(s);
    var j := TrimRightPrefix(t);
    a, b := k, k + j;
    assert t[..j] == s[a..b];
    assert forall i :: b <= i < |s| ==> s[i] == t[i - a];
    forall i | 0 <= i < |s| ensures IsSpace(s[i]) <==> WhiteSpace(s[i]) { SpaceIsWhite(s[i]); }
  }

  /** A normalized text is the text without control characters, between its outer
      white space, less every blank after a blank. */
  lemma NormalizeMeans(s: string) returns (t: string, a: int, b: int)
    ensures Picks(s, NoControl(s), t) && Middle(t, a, b) && Picks(t[a..b], NotRepeated(t[a..b]), Normalize(s))
  {
    hide *;
    t := Strip(s);
    StripPicks(s);
    a, b := TrimMiddle(t);
    StripResult(s);
    TrimResult(t);
    CollapsePicks(Trim(t));
    NormalizeIs(s);
  }

  lemma NormalizeIs(s: string)
    ensures Normalize(s) == Collapse(Trim(Strip(s)))
  {
  }

  /** Escaping replaces five characters, each on its own. */
  lemma EscapeReplaces(a: string, c: char, b: string)
    ensures Escape(a + [c] + b) ==
            Escape(a) +
            (match c case '&' => "&amp;" case '<' => "&lt;" case '>' => "&gt;" case '\'' => "&#39;" case '"' => "&#34;" case _ => [c]) +
            Escape(b)
    ensures Escape("") == ""
  {
    EscapeJoin(a + [c], b);
    EscapeLast(a, c);
    assert Escape("") == "";
    assert Entity(c) == match c case '&' => "&amp;" case '<' => "&lt;" case '>' => "&gt;" case '\'' => "&#39;" case '"' => "&#34;" case _ => [c];
    hide *;
  }

  lemma {:induction false} EscapeJoin(a: string, b: string)
    ensures Escape(a + b) == Escape(a) + Escape(b)
  {
    if |a| == 0 {
      assert a + b == b;
    } else {
      assert (a + b)[0] == a[0] && (a + b)[1..] == a[1..] + b;
      EscapeJoin(a[1..], b);
      hide Entity;
    }
  }

  // ----- addresses and environments

  ghost predicate EmailText(s: string) {
    forall i :: 0 <= i < |s| ==>
      '0' <= s[i] <= '9' || 'a' <= s[i] <= 'z' || 'A' <= s[i] <= 'Z' || s[i] in {'.', '@', '_', '+', '-'}
  }

  ghost predicate AddressText(s: string) {
    forall i :: 0 <= i < |s| ==> '0' <= s[i] <= '9' || s[i] in {'.', ':'}
  }

  lemma KeptOnly(p: char -> bool, s: string)
    ensures forall i :: 0 <= i < |Filter(p, s)| ==> p(Filter(p, s)[i])
  {
    FilterMembers(p, s);
    forall i | 0 <= i < |Filter(p, s)| ensures p(Filter(p, s)[i]) { assert Filter(p, s)[i] in Filter(p, s); }
  }

  lemma AllMembers(p: char -> bool, s: string)
    requires forall i :: 0 <= i < |s| ==> p(s[i])
    ensures forall c :: c in s ==> p(c)
  {
  }

  /** Only letters, digits and . @ _ + - remain of an e-mail address, and only digits
      and . : of an IP address; a text of these is left as it is. */
  lemma AddressesMean(s: string)
    ensures EmailText(SanitizeEmail(s)) && (EmailText(s) ==> SanitizeEmail(s) == s)
    ensures AddressText(SanitizeIP(s)) && (AddressText(s) ==> SanitizeIP(s) == s)
  {
    assert Plain(EmailChar()) && Plain(IpChar());
    KeptOnly(EmailChar(), SanitizeString(s));
    KeptOnly(IpChar(), SanitizeString(s));
    hide SanitizeString, Filter, Plain;
    if EmailText(s) {
      AllMembers(EmailChar(), s);
      PlainUntouched(EmailChar(), s);
    }
    if AddressText(s) {
      AllMembers(IpChar(), s);
      PlainUntouched(IpChar(), s);
    }
  }

  /** Which texts become which environment. */
  lemma EnvironmentNames(lower: char -> char, env: string)
    ensures var (w, e) := (ToLower(lower, SanitizeString(env)), SanitizeEnvironment(lower, env));
            && (e == "production" <==> w in {"prod", "production"})
            && (e == "staging" <==> w in {"staging", "stage", "homolog", "homologation"})
            && (e == "testing" <==> w in {"test", "testing"})
            && (e == "local" <==> w == "local")
            && (e == "development" <==>
                  w !in {"prod", "production", "staging", "stage", "homolog", "homologation", "test", "testing", "local"})
  {
    var w := ToLower(lower, SanitizeString(env));
    NamesDiffer();
    hide SanitizeString, ToLower;
  }

  lemma NamesDiffer()
    ensures "production" != "staging" && "production" != "testing" && "production" != "local" && "production" != "development"
    ensures "staging" != "testing" && "staging" != "local" && "staging" != "development"
    ensures "testing" != "local" && "testing" != "development" && "local" != "development"
  {
    assert |"staging"| == |"testing"| && "staging"[0] == 's' && "testing"[0] == 't';
  }
}
