/** The string keys of the detector's maps, and what can be read back from them. */
module AnomalyKeys {

  datatype RuleType = VolumeSpike | ErrorRate | BruteForce | SilentService | MassDelete | ErrorRateByRoute

  function RuleName(rt: RuleType): string {
    match rt
    case VolumeSpike => "volume_spike"
    case ErrorRate => "error_rate"
    case BruteForce => "brute_force"
    case SilentService => "silent_service"
    case MassDelete => "mass_delete"
    case ErrorRateByRoute => "error_rate_by_route"
  }

  function WindowKey(project: string, service: string): string { project + ":" + service }

  function CooldownKey(project: string, rt: RuleType): string { project + ":" + RuleName(rt) }

  function RouteKey(project: string, path: string, verb: string): string { project + "::" + verb + "::" + path }

  ghost predicate ColonFree(s: string) { ':' !in s }

  /** A text cut at its first colon is determined by the whole. */
  lemma FirstColon(a: string, x: string, b: string, y: string)
    requires ColonFree(a) && ColonFree(b) && a + ":" + x == b + ":" + y
    ensures a == b && x == y
  {
    var s := a + ":" + x;
    assert s == b + ":" + y;
    assert s[|a|] == ':' && s[|b|] == ':';
    assert |a| == |b| by {
      assert forall i :: 0 <= i < |a| ==> s[i] == a[i];
      assert forall i :: 0 <= i < |b| ==> s[i] == b[i];
    }
    assert a == s[..|a|] && b == s[..|b|];
    assert x == s[|a| + 1..] && y == s[|b| + 1..];
  }

  lemma LastColon(a: string, x: string, b: string, y: string)
    requires ColonFree(x) && ColonFree(y) && a + ":" + x == b + ":" + y
    ensures a == b && x == y
  {
    var s := a + ":" + x;
    assert s == b + ":" + y;
    assert s[|a|] == ':' && s[|b|] == ':';
    assert |a| == |b| by {
      assert forall i :: |a| < i < |s| ==> s[i] == x[i - |a| - 1];
      assert forall i :: |b| < i < |s| ==> s[i] == y[i - |b| - 1];
    }
    assert a == s[..|a|] && b == s[..|b|];
    assert x == s[|a| + 1..] && y == s[|b| + 1..];
  }

  lemma RuleNameInjective(r: RuleType, t: RuleType)
    requires RuleName(r) == RuleName(t)
    ensures r == t
  {
    assert RuleName(r)[0] == RuleName(t)[0];
    assert |RuleName(r)| == |RuleName(t)|;
  }

  lemma RuleNameColonFree(rt: RuleType)
    ensures ColonFree(RuleName(rt))
  {
  }

  /** Two alerts share a cooldown exactly when they share project and rule,
      whatever characters the project id holds. */
  lemma CooldownKeyInjective(p: string, r: RuleType, q: string, t: RuleType)
    ensures CooldownKey(p, r) == CooldownKey(q, t) <==> p == q && r == t
  {
    if CooldownKey(p, r) == CooldownKey(q, t) {
      RuleNameColonFree(r);
      RuleNameColonFree(t);
      LastColon(p, RuleName(r), q, RuleName(t));
      RuleNameInjective(r, t);
    }
  }

  lemma RouteKeyInjective(p: string, path: string, verb: string, q: string, path': string, verb': string)
    requires ColonFree(p) && ColonFree(q) && ColonFree(verb) && ColonFree(verb')
    ensures RouteKey(p, path, verb) == RouteKey(q, path', verb') <==> p == q && path == path' && verb == verb'
  {
    if RouteKey(p, path, verb) == RouteKey(q, path', verb') {
      assert RouteKey(p, path, verb) == p + ":" + (":" + verb + "::" + path);
      assert RouteKey(q, path', verb') == q + ":" + (":" + verb' + "::" + path');
      FirstColon(p, ":" + verb + "::" + path, q, ":" + verb' + "::" + path');
      var x, y := ":" + verb + "::" + path, ":" + verb' + "::" + path';
      assert x[1..] == verb + ":" + (":" + path) && y[1..] == verb' + ":" + (":" + path');
      FirstColon(verb, ":" + path, verb', ":" + path');
      assert (":" + path)[1..] == path && (":" + path')[1..] == path';
    }
  }

  /** The position of the first colon, or the length when there is none. */
  function FirstColonAt(key: string): (i: nat)
    ensures i <= |key| && ColonFree(key[..i])
    ensures i < |key| ==> key[i] == ':'
  {
    if |key| == 0 || key[0] == ':' then 0
    else
      var i := FirstColonAt(key[1..]);
      assert key[..i + 1] == [key[0]] + key[1..][..i];
      i + 1
  }

  function ProjectOf(key: string): string { key[..FirstColonAt(key)] }

  function ServiceOf(key: string): string
    requires ':' in key
  {
    var i := FirstColonAt(key);
    assert key[..|key|] == key;
    key[i + 1..]
  }

  lemma FirstColonUnique(key: string, i: nat)
    requires i < |key| && key[i] == ':' && ColonFree(key[..i])
    ensures i == FirstColonAt(key)
  {
    var k := FirstColonAt(key);
    assert forall j :: 0 <= j < i ==> key[j] == key[..i][j];
    assert forall j :: 0 <= j < k ==> key[j] == key[..k][j];
  }

  /** The scan of checkAllSilentServices. */
  method SplitKey(key: string) returns (project: string, service: string)
    requires ':' in key
    ensures project == ProjectOf(key) && service == ServiceOf(key)
  {
    var sep := |key|;
    var i := 0;
    while i < |key|
      invariant 0 <= i <= |key| && sep == |key| && ColonFree(key[..i])
    {
      if key[i] == ':' {
        sep := i;
        break;
      }
      assert key[..i + 1] == key[..i] + [key[i]];
      i := i + 1;
    }
    assert key[..|key|] == key;
    FirstColonUnique(key, sep);
    project, service := key[..sep], key[sep + 1..];
  }

  /** The silent-service check never slices out of range, and it recovers the
      pair the key was built from exactly when the project id has no colon. */
  lemma WindowKeySplits(p: string, s: string)
    ensures ':' in WindowKey(p, s)
    ensures ProjectOf(WindowKey(p, s)) == p && ServiceOf(WindowKey(p, s)) == s <==> ColonFree(p)
  {
    var key := WindowKey(p, s);
    assert key[|p|] == ':';
    assert key[..|p|] == p && key[|p| + 1..] == s;
    if ColonFree(p) {
      FirstColonUnique(key, |p|);
    }
  }
}
