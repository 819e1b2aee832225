/** Licence feature flags: which strings are flags, and which flag a wrong string was probably meant to be. */
module Features {
  import opened Common
  import opened EditDistance

  const KNOWN: seq<string> :=
    ["audit", "policy_engine", "billing", "deployment_approvals", "inference_audit", "gdpr", "ai_act_compliance"]

  /** Product names and other strings operators type instead of the flag. */
  const ALIASES: map<string, string> := map[
    "chargeback" := "billing", "finops" := "billing", "usage_accounting" := "billing",
    "opa_policies" := "policy_engine", "opa" := "policy_engine", "rego" := "policy_engine",
    "policy_as_code" := "policy_engine", "policies" := "policy_engine",
    "audit_log" := "audit", "ai_act" := "ai_act_compliance", "approvals" := "deployment_approvals",
    "right_to_erasure" := "gdpr", "inference_logging" := "inference_audit"]

  /** Capabilities that no flag gates. */
  const UNGATED: set<string> :=
    {"ha", "rbac", "sso", "oidc", "saml", "ldap", "fleet_scale", "slo", "what_if", "planner", "pki", "multicluster"}

  predicate IsKnownFeature(name: string) { name in KNOWN }

  // ---- Normalisation ----------------------------------------------------------------------

  /** The Unicode tables beyond ASCII, left abstract. */
  datatype Unicode = Unicode(lower: char -> char, space: char -> bool)

  function Lower(u: Unicode, c: char): (r: char) {
    if 'A' <= c <= 'Z' then (c as int + 32) as char
    else if c < 128 as char then c
    else u.lower(c)
  }

  predicate Space(u: Unicode, c: char) {
    if c < 128 as char then c == ' ' || 9 as char <= c <= 13 as char else u.space(c)
  }

  function TrimLeft(u: Unicode, s: string): (r: string)
    ensures |r| <= |s|
  {
    if s != [] && Space(u, s[0]) then TrimLeft(u, s[1..]) else s
  }

  function TrimRight(u: Unicode, s: string): (r: string)
    ensures |r| <= |s|
  {
    if s != [] && Space(u, s[|s| - 1]) then TrimRight(u, s[..|s| - 1]) else s
  }

  function Fold(u: Unicode, c: char): (r: char) {
    var l := Lower(u, c);
    if l == '-' then '_' else l
  }

  /** Surrounding space, letter case and "-" versus "_" do not matter to an operator's intent. */
  function Normalise(u: Unicode, name: string): (r: string) {
    var s := TrimRight(u, TrimLeft(u, name));
    seq(|s|, i requires 0 <= i < |s| => Fold(u, s[i]))
  }

  predicate Plain(s: string) {
    forall i :: 0 <= i < |s| ==> 'a' <= s[i] <= 'z' || s[i] == '_'
  }

  /** Lower-case words joined by underscores are their own normal form. */
  lemma PlainIsNormal(u: Unicode, s: string)
    requires Plain(s)
    ensures Normalise(u, s) == s
  {
    if s != [] {
      assert !Space(u, s[0]) && !Space(u, s[|s| - 1]);
    }
  }

  /** White space: the ASCII kinds, or what the Unicode tables say. */
  ghost predicate Blank(u: Unicode, c: char) {
    || c == ' ' || c == '\t' || c == '\n' || c == 11 as char || c == 12 as char || c == '\r'
    || (c >= 128 as char && u.space(c))
  }

  /** The name between i and j is what is left when white space is trimmed from both ends. */
  ghost predicate TrimmedTo(u: Unicode, name: string, i: nat, j: nat) {
    && i <= j <= |name|
    && (forall k :: 0 <= k < i || j <= k < |name| ==> Blank(u, name[k]))
    && (i < j ==> !Blank(u, name[i]) && !Blank(u, name[j - 1]))
  }

  lemma {:induction false} TrimLeftAt(u: Unicode, s: string) returns (i: nat)
    ensures i <= |s| && TrimLeft(u, s) == s[i..] && (forall k :: 0 <= k < i ==> Blank(u, s[k]))
    ensures i < |s| ==> !Blank(u, s[i])
  {
    if s != [] && Space(u, s[0]) {
      var n := TrimLeftAt(u, s[1..]);
      i := n + 1;
      forall k | 0 <= k < i ensures Blank(u, s[k]) { if k > 0 { assert s[k] == s[1..][k - 1]; } }
    } else {
      i := 0;
    }
  }

  lemma {:induction false} TrimRightAt(u: Unicode, s: string) returns (j: nat)
    ensures j <= |s| && TrimRight(u, s) == s[..j] && (forall k :: j <= k < |s| ==> Blank(u, s[k]))
    ensures j > 0 ==> !Blank(u, s[j - 1])
  {
    if s != [] && Space(u, s[|s| - 1]) {
      j := TrimRightAt(u, s[..|s| - 1]);
      forall k | j <= k < |s| ensures Blank(u, s[k]) { if k < |s| - 1 { assert s[k] == s[..|s| - 1][k]; } }
      assert s[..|s| - 1][..j] == s[..j];
    } else {
      j := |s|;
      assert s[..j] == s;
    }
  }

  /** Letter case and the hyphen, character by character. */
  ghost function Typed(u: Unicode, c: char): (r: char) {
    if c == '-' then '_'
    else if 'A' <= c <= 'Z' then (c as int + 32) as char
    else if c < 128 as char then c
    else if u.lower(c) == '-' then '_' else u.lower(c)
  }

  lemma FoldMeans(u: Unicode, c: char)
    ensures Fold(u, c) == Typed(u, c)
  {
  }

  /** The normal form: trimmed, with capitals made small and hyphens made underscores, character by character. */
  lemma NormaliseMeans(u: Unicode, name: string) returns (i: nat, j: nat)
    ensures TrimmedTo(u, name, i, j) && |Normalise(u, name)| == j - i
    ensures forall k :: i <= k < j ==> Normalise(u, name)[k - i] == Typed(u, name[k])
  {
    var s := TrimLeft(u, name);
    i := TrimLeftAt(u, name);
    var m := TrimRightAt(u, s);
    j := i + m;
    forall k | j <= k < |name| ensures Blank(u, name[k]) { assert name[k] == s[k - i]; }
    assert i < j ==> name[i] == s[0] && name[j - 1] == s[m - 1];
    forall k | i <= k < j ensures Normalise(u, name)[k - i] == Typed(u, name[k]) {
      assert TrimRight(u, s)[k - i] == name[k];
      FoldMeans(u, name[k]);
    }
  }

  // ---- Suggestions ------------------------------------------------------------------------

  /** Near in absolute terms and relative to the candidate. */
  predicate Close(norm: string, flag: string) {
    Lev(norm, flag) <= 3 && Lev(norm, flag) * 2 <= |flag|
  }

  /** Index k names the earliest flag of least distance among the close ones in the first n. */
  ghost predicate NearestAmong(flags: seq<string>, norm: string, n: nat, k: nat) {
    && k < n <= |flags| && Close(norm, flags[k])
    && (forall j :: 0 <= j < n && Close(norm, flags[j]) ==> Lev(norm, flags[k]) <= Lev(norm, flags[j]))
    && (forall j :: 0 <= j < k && Close(norm, flags[j]) ==> Lev(norm, flags[k]) < Lev(norm, flags[j]))
  }

  /** Nothing when no flag is close, otherwise the earliest declared flag of least distance among the close ones. */
  ghost predicate Nearest(flags: seq<string>, norm: string, r: Option<string>) {
    match r
    case None => forall j :: 0 <= j < |flags| ==> !Close(norm, flags[j])
    case Some(flag) => exists k: nat :: NearestAmong(flags, norm, |flags|, k) && flag == flags[k]
  }

  /**
   * What the nearest flag is: within three edits and half its length, none within both nearer, and none as near before
   * it.
   */
  lemma NearestMeans(flags: seq<string>, norm: string, r: Option<string>)
    requires Nearest(flags, norm, r)
    ensures r.None? ==> forall j :: 0 <= j < |flags| ==> Lev(norm, flags[j]) > 3 || Lev(norm, flags[j]) * 2 > |flags[j]|
    ensures r.Some? ==>
              exists k: nat :: k < |flags| && flags[k] == r.value && NearestAt(flags, norm, k)
  {
    if r.Some? {
      var k: nat :| NearestAmong(flags, norm, |flags|, k) && r.value == flags[k];
      assert NearestAt(flags, norm, k);
    }
  }

  ghost predicate NearestAt(flags: seq<string>, norm: string, k: nat)
    requires k < |flags|
  {
    var d := Lev(norm, flags[k]);
    && d <= 3 && d * 2 <= |flags[k]|
    && forall j :: 0 <= j < |flags| && Lev(norm, flags[j]) <= 3 && Lev(norm, flags[j]) * 2 <= |flags[j]| ==>
         d <= Lev(norm, flags[j]) && (j < k ==> d < Lev(norm, flags[j]))
  }

  /** The loop over the declared flags. */
  method NearestFlag(flags: seq<string>, norm: string) returns (r: Option<string>)
    ensures Nearest(flags, norm, r)
  {
    var best, bestDist := "", -1;
    ghost var k := 0;
    for i := 0 to |flags|
      invariant -1 <= bestDist
      invariant bestDist == -1 ==> forall j :: 0 <= j < i ==> !Close(norm, flags[j])
      invariant bestDist >= 0 ==> NearestAmong(flags, norm, i, k) && best == flags[k] && bestDist == Lev(norm, flags[k])
    {
      var known := flags[i];
      var d := Levenshtein(norm, known);
      if !(d > 3 || d * 2 > |known|) {
        if bestDist == -1 || d < bestDist {
          best, bestDist := known, d;
          k := i;
        }
      }
    }
    if bestDist >= 0 {
      assert NearestAmong(flags, norm, |flags|, k);
      return Some(best);
    }
    return None;
  }

  /** Every branch, in order: nothing for empty or ungated names, a slip, an alias, then the nearest flag. */
  method SuggestFeature(u: Unicode, name: string) returns (r: Option<string>)
    ensures r.Some? ==> IsKnownFeature(r.value)
    ensures var norm := Normalise(u, name);
            if norm == "" || norm in UNGATED then r.None?
            else if IsKnownFeature(norm) && norm != name then r == Some(norm)
            else if norm in ALIASES then r == Some(ALIASES[norm])
            else Nearest(KNOWN, norm, r)
    ensures IsKnownFeature(name) ==> r == Some(name)
  {
    var norm := Normalise(u, name);
    if IsKnownFeature(name) { KnownIsNormal(u, name); }
    if norm == "" { return None; }
    if norm in UNGATED { return None; }
    if IsKnownFeature(norm) && norm != name { return Some(norm); }
    if norm in ALIASES {
      AliasesAreKnown(norm);
      return Some(ALIASES[norm]);
    }
    r := NearestFlag(KNOWN, norm);
    NearestIsListed(KNOWN, norm, r);
    if IsKnownFeature(name) { ListedIsNearest(KNOWN, name, r); }
  }

  lemma NearestIsListed(flags: seq<string>, norm: string, r: Option<string>)
    requires Nearest(flags, norm, r)
    ensures r.Some? ==> r.value in flags
  {
  }

  /** A listed flag is nearest to itself: distance zero always wins, although there is nothing to correct. */
  lemma ListedIsNearest(flags: seq<string>, name: string, r: Option<string>)
    requires name in flags && Nearest(flags, name, r)
    ensures r == Some(name)
  {
    LevIsMetric(name, name, name);
    var i :| 0 <= i < |flags| && flags[i] == name;
    assert Close(name, flags[i]);
    if r.Some? {
      var k: nat :| NearestAmong(flags, name, |flags|, k) && r.value == flags[k];
      LevIsMetric(name, flags[k], name);
    }
  }

  lemma AliasesAreKnown(key: string)
    requires key in ALIASES
    ensures IsKnownFeature(ALIASES[key])
  {
    assert KNOWN[0] == "audit" && KNOWN[1] == "policy_engine" && KNOWN[2] == "billing"
           && KNOWN[3] == "deployment_approvals";
    assert KNOWN[4] == "inference_audit" && KNOWN[5] == "gdpr" && KNOWN[6] == "ai_act_compliance";
  }

  lemma KnownIsPlain(name: string)
    requires IsKnownFeature(name)
    ensures Plain(name) && name != ""
  {
  }

  lemma KnownIsNothingElse(name: string)
    requires IsKnownFeature(name)
    ensures name !in UNGATED && name !in ALIASES
  {
  }

  lemma KnownIsNormal(u: Unicode, name: string)
    requires IsKnownFeature(name)
    ensures Normalise(u, name) == name && name != "" && name !in UNGATED && name !in ALIASES
  {
    KnownIsPlain(name);
    KnownIsNothingElse(name);
    PlainIsNormal(u, name);
  }

  // ---- Validation -------------------------------------------------------------------------

  /** Why a string is not a flag, as far as it can be told. */
  datatype Hint = Ungated | ProductName(flag: string) | DidYouMean(flag: string) | NoHint
  datatype UnknownFeatureError = UnknownFeatureError(feature: string, hint: Hint)

  /** The names no gate checks, in input order. */
  function Unknown(names: seq<string>): (r: seq<string>) {
    if names == [] then []
    else
      var front := Unknown(names[..|names| - 1]);
      if IsKnownFeature(names[|names| - 1]) then front else front + [names[|names| - 1]]
  }

  /** Every unknown name occurs exactly as often as it was given, and no known name occurs. */
  lemma {:induction false} UnknownMembers(names: seq<string>, x: string)
    ensures multiset(Unknown(names))[x] == if IsKnownFeature(x) then 0 else multiset(names)[x]
  {
    if names != [] {
      var front, last := names[..|names| - 1], names[|names| - 1];
      UnknownMembers(front, x);
      assert names == front + [last];
    }
  }

  /** The order of the input is kept. */
  lemma {:induction false} UnknownConcat(a: seq<string>, b: seq<string>)
    ensures Unknown(a + b) == Unknown(a) + Unknown(b)
  {
    if b == [] {
      assert a + b == a;
    } else {
      UnknownConcat(a, b[..|b| - 1]);
      assert (a + b)[..|a + b| - 1] == a + b[..|b| - 1];
    }
  }

  method UnknownFeatures(names: seq<string>) returns (out: seq<string>)
    ensures out == Unknown(names)
    ensures forall x :: multiset(out)[x] == if IsKnownFeature(x) then 0 else multiset(names)[x]
  {
    out := [];
    for i := 0 to |names|
      invariant out == Unknown(names[..i])
    {
      assert names[..i + 1][..i] == names[..i];
      if !IsKnownFeature(names[i]) { out := out + [names[i]]; }
    }
    assert names[..|names|] == names;
    forall x ensures multiset(out)[x] == if IsKnownFeature(x) then 0 else multiset(names)[x] {
      UnknownMembers(names, x);
    }
  }

  /** The hint a wrong name gets: ungated, a product name, or the correction SuggestFeature finds. */
  ghost predicate Explains(u: Unicode, name: string, h: Hint) {
    var norm := Normalise(u, name);
    if norm in UNGATED then h == Ungated
    else if norm in ALIASES then h == ProductName(ALIASES[norm])
    else if norm == "" then h == NoHint
    else if IsKnownFeature(norm) then h == DidYouMean(norm)
    else match h
      case DidYouMean(flag) => Nearest(KNOWN, norm, Some(flag))
      case NoHint => Nearest(KNOWN, norm, None)
      case _ => false
  }

  method ValidateFeature(u: Unicode, name: string) returns (e: Option<UnknownFeatureError>)
    ensures e.None? <==> IsKnownFeature(name)
    ensures e.Some? ==> e.value.feature == name
    ensures e.Some? ==> Explains(u, name, e.value.hint)
    ensures e.Some? && (e.value.hint.ProductName? || e.value.hint.DidYouMean?) ==> IsKnownFeature(e.value.hint.flag)
  {
    if IsKnownFeature(name) { return None; }
    var norm := Normalise(u, name);
    if norm in UNGATED { return Some(UnknownFeatureError(name, Ungated)); }
    if norm in ALIASES {
      AliasesAreKnown(norm);
      return Some(UnknownFeatureError(name, ProductName(ALIASES[norm])));
    }
    var s := SuggestFeature(u, name);
    if s.Some? { return Some(UnknownFeatureError(name, DidYouMean(s.value))); }
    return Some(UnknownFeatureError(name, NoHint));
  }

  /** All offenders are reported, in order: the validation succeeds exactly when nothing is unknown. */
  method ValidateFeatures(u: Unicode, names: seq<string>) returns (errs: seq<UnknownFeatureError>)
    ensures |errs| == |Unknown(names)| && forall i :: 0 <= i < |errs| ==> errs[i].feature == Unknown(names)[i]
    ensures errs == [] <==> forall i :: 0 <= i < |names| ==> IsKnownFeature(names[i])
  {
    errs := [];
    for i := 0 to |names|
      invariant |errs| == |Unknown(names[..i])|
      invariant forall j :: 0 <= j < |errs| ==> errs[j].feature == Unknown(names[..i])[j]
      invariant errs == [] <==> forall j :: 0 <= j < i ==> IsKnownFeature(names[j])
    {
      assert names[..i + 1][..i] == names[..i];
      var e := ValidateFeature(u, names[i]);
      if e.Some? { errs := errs + [e.value]; }
    }
    assert names[..|names|] == names;
  }
}
