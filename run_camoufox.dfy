/**
 * The older entry point run_camoufox.py: its cookie sanitizer (rename and
 * filter keys, never drop a record) and the fleet plan of `main` (merge the
 * global settings under each profile, skip profiles without a cookie file
 * or URL, launch the rest in list order).
 */
module RunCamoufox {
  import opened Wrappers
  import opened Json
  import opened CookieHandler
  import opened Launch

  /** The key an exported entry is stored under: expirationDate becomes expires. */
  function TargetKey(key: string): string {
    if key == "expirationDate" then "expires" else key
  }

  /** The sameSite value the sanitizer stores: always None, Lax or Strict. */
  function LegacySameSite(v: Value): (r: string)
    ensures r in {"None", "Lax", "Strict"}
    ensures LowerText(v) == "lax" ==> r == "Lax"
    ensures LowerText(v) == "strict" ==> r == "Strict"
    ensures LowerText(v) != "lax" && LowerText(v) != "strict" ==> r == "None"
  {
    LowerTextIsLowerOfText(v);
    CapitalizeIgnoresCase(Text(v));
    CapitalizedKeywords();
    if v == Null || LowerText(v) == "no_restriction" then "None"
    else if LowerText(v) in {"lax", "strict", "none"} then Capitalize(Text(v))
    else "None"
  }

  /** The value stored for one exported entry. */
  function StoredValue(key: string, v: Value): Value {
    if key == "sameSite" then Str(LegacySameSite(v)) else v
  }

  /** `new_cookie` after the entries of `items`, in order. */
  function Renamed(items: Dict): Record {
    if items == [] then map[]
    else
      var (key, v) := items[|items| - 1];
      Renamed(items[..|items| - 1])[TargetKey(key) := StoredValue(key, v)]
  }

  /** The sanitized record: `new_cookie` restricted to the allowed keys. */
  function Sanitized(c: Dict): (r: Record)
    ensures r.Keys <= AllowedKeys
  {
    var fields := Renamed(c);
    map k | k in fields && k in AllowedKeys :: fields[k]
  }

  /** The keys of `new_cookie` are the renamed keys of the export. */
  lemma {:induction false} RenamedKeys(items: Dict)
    ensures Renamed(items).Keys == set i | 0 <= i < |items| :: TargetKey(items[i].0)
  {
    if items != [] {
      var init := items[..|items| - 1];
      RenamedKeys(init);
      assert forall i :: 0 <= i < |init| ==> init[i] == items[i];
    }
  }

  /** The entry written last for a key is the one `new_cookie` keeps. */
  lemma {:induction false} LastWriteWins(items: Dict, i: nat)
    requires i < |items|
    requires forall j :: i < j < |items| ==> TargetKey(items[j].0) != TargetKey(items[i].0)
    ensures TargetKey(items[i].0) in Renamed(items)
    ensures Renamed(items)[TargetKey(items[i].0)] == StoredValue(items[i].0, items[i].1)
  {
    if i < |items| - 1 {
      var init := items[..|items| - 1];
      assert init[i] == items[i];
      LastWriteWins(init, i);
    }
  }

  /** A stored sameSite is always one of None, Lax, Strict. */
  lemma {:induction false} RenamedSameSite(items: Dict)
    ensures "sameSite" in Renamed(items) ==>
      Renamed(items)["sameSite"] in {Str("None"), Str("Lax"), Str("Strict")}
  {
    if items != [] {
      RenamedSameSite(items[..|items| - 1]);
    }
  }

  /**
   * The keys of a sanitized record: the allowed keys the export has, plus
   * `expires` when it has an expirationDate; a stored sameSite is always
   * None, Lax or Strict.
   */
  lemma SanitizedShape(c: Dict)
    ensures forall k :: k in Sanitized(c) <==>
      k in AllowedKeys && (k in KeysOf(c) || (k == "expires" && "expirationDate" in KeysOf(c)))
    ensures "sameSite" in Sanitized(c) ==>
      Sanitized(c)["sameSite"] in {Str("None"), Str("Lax"), Str("Strict")}
  {
    RenamedKeys(c);
    RenamedSameSite(c);
    forall k | k in AllowedKeys && k in KeysOf(c)
      ensures k in Renamed(c)
    {
      var i :| 0 <= i < |c| && c[i].0 == k;
      assert TargetKey(c[i].0) == k;
    }
    if "expirationDate" in KeysOf(c) {
      var i :| 0 <= i < |c| && c[i].0 == "expirationDate";
      assert TargetKey(c[i].0) == "expires";
    }
  }

  /** An allowed entry other than `expires` is kept, sameSite mapped and
      every other value unchanged. */
  lemma SanitizedValue(c: Dict, i: nat)
    requires DistinctKeys(c) && i < |c|
    requires c[i].0 in AllowedKeys && c[i].0 != "expires"
    ensures c[i].0 in Sanitized(c)
    ensures Sanitized(c)[c[i].0] == StoredValue(c[i].0, c[i].1)
  {
    LastWriteWins(c, i);
  }

  /** An expirationDate appears as `expires`, unless the export also has an
      `expires` entry after it (then that later entry wins). */
  lemma SanitizedExpiry(c: Dict, i: nat)
    requires DistinctKeys(c) && i < |c| && c[i].0 == "expirationDate"
    requires forall j :: i < j < |c| ==> c[j].0 != "expires"
    ensures "expires" in Sanitized(c) && Sanitized(c)["expires"] == c[i].1
  {
    LastWriteWins(c, i);
  }

  /** sanitize_cookies: one record out per record in, in the same order. */
  method SanitizeCookies(cookies: seq<Dict>) returns (sanitized: seq<Record>)
    ensures |sanitized| == |cookies|
    ensures forall i :: 0 <= i < |cookies| ==> sanitized[i] == Sanitized(cookies[i])
  {
    sanitized := [];
    for i := 0 to |cookies|
      invariant |sanitized| == i
      invariant forall j :: 0 <= j < i ==> sanitized[j] == Sanitized(cookies[j])
    {
      var cookie := cookies[i];
      var newCookie: Record := map[];
      for j := 0 to |cookie|
        invariant newCookie == Renamed(cookie[..j])
      {
        var (key, value) := cookie[j];
        assert cookie[..j + 1][..j] == cookie[..j];
        if key == "expirationDate" {
          newCookie := newCookie["expires" := value];
        } else if key == "sameSite" {
          var text := LowerText(value);
          if value == Null || text == "no_restriction" {
            newCookie := newCookie["sameSite" := Str("None")];
          } else if text in {"lax", "strict", "none"} {
            newCookie := newCookie["sameSite" := Str(Capitalize(Text(value)))];
          } else {
            newCookie := newCookie["sameSite" := Str("None")];
          }
        } else {
          newCookie := newCookie[key := value];
        }
      }
      assert cookie[..|cookie|] == cookie;
      var finalCookie := map k | k in newCookie && k in AllowedKeys :: newCookie[k];
      sanitized := sanitized + [finalCookie];
    }
  }

  /** `final_config = global_settings.copy(); final_config.update(profile)`. */
  function MergeConfig(global: Config, profile: Config): (r: Config)
    ensures r.Keys == global.Keys + profile.Keys
    ensures forall k :: k in profile ==> r[k] == profile[k]
    ensures forall k :: k in global && k !in profile ==> r[k] == global[k]
  {
    global + profile
  }

  /** The skip rule: a profile needs a cookie file and a URL. */
  predicate Launchable(config: Config) {
    "cookie_file" in config && "url" in config
  }

  /** The configurations launched (one process each) and the profiles skipped with a warning. */
  datatype Plan = Plan(launched: seq<Config>, skipped: seq<Config>)

  function LaunchPlan(global: Config, profiles: seq<Config>): Plan {
    if profiles == [] then Plan([], [])
    else
      var p := LaunchPlan(global, profiles[..|profiles| - 1]);
      var profile := profiles[|profiles| - 1];
      var merged := MergeConfig(global, profile);
      if Launchable(merged) then p.(launched := p.launched + [merged])
      else p.(skipped := p.skipped + [profile])
  }

  /** For each launched configuration, the index of its profile. */
  function LaunchOrigins(global: Config, profiles: seq<Config>): seq<nat> {
    if profiles == [] then []
    else
      var idx := LaunchOrigins(global, profiles[..|profiles| - 1]);
      if Launchable(MergeConfig(global, profiles[|profiles| - 1])) then idx + [|profiles| - 1] else idx
  }

  /** The origins are profile indices in strictly increasing order. */
  lemma {:induction false} LaunchOriginsIncrease(global: Config, profiles: seq<Config>)
    ensures forall k :: 0 <= k < |LaunchOrigins(global, profiles)| ==>
      LaunchOrigins(global, profiles)[k] < |profiles|
    ensures forall k1, k2 :: 0 <= k1 < k2 < |LaunchOrigins(global, profiles)| ==>
      LaunchOrigins(global, profiles)[k1] < LaunchOrigins(global, profiles)[k2]
  {
    if profiles != [] {
      var init := profiles[..|profiles| - 1];
      var idx := LaunchOrigins(global, init);
      LaunchOriginsIncrease(global, init);
      if Launchable(MergeConfig(global, profiles[|profiles| - 1])) {
        var ext := idx + [|init|];
        assert LaunchOrigins(global, profiles) == ext;
        assert forall k :: 0 <= k < |idx| ==> ext[k] == idx[k];
      }
    }
  }

  /** Launched configuration k is the merge of profile LaunchOrigins[k]. */
  lemma {:induction false} LaunchedFromOrigins(global: Config, profiles: seq<Config>)
    ensures |LaunchOrigins(global, profiles)| == |LaunchPlan(global, profiles).launched|
    ensures forall k :: 0 <= k < |LaunchOrigins(global, profiles)| && LaunchOrigins(global, profiles)[k] < |profiles| ==>
      LaunchPlan(global, profiles).launched[k] == MergeConfig(global, profiles[LaunchOrigins(global, profiles)[k]])
  {
    if profiles != [] {
      var init := profiles[..|profiles| - 1];
      var last := profiles[|profiles| - 1];
      var p, idx := LaunchPlan(global, init), LaunchOrigins(global, init);
      LaunchedFromOrigins(global, init);
      LaunchOriginsIncrease(global, init);
      assert forall k :: 0 <= k < |init| ==> init[k] == profiles[k];
      var merged := MergeConfig(global, last);
      if Launchable(merged) {
        var launched, origins := p.launched + [merged], idx + [|init|];
        assert LaunchPlan(global, profiles).launched == launched;
        assert LaunchOrigins(global, profiles) == origins;
        forall k | 0 <= k < |origins|
          ensures launched[k] == MergeConfig(global, profiles[origins[k]])
        {
          if k < |idx| { assert origins[k] == idx[k] && launched[k] == p.launched[k]; }
        }
      } else {
        assert LaunchPlan(global, profiles).launched == p.launched;
        assert LaunchOrigins(global, profiles) == idx;
      }
    }
  }

  /** Launched configurations have both keys, skipped profiles lack one after
      the merge, and every profile is one or the other. */
  lemma {:induction false} LaunchPlanPartitions(global: Config, profiles: seq<Config>)
    ensures forall c :: c in LaunchPlan(global, profiles).launched ==> "cookie_file" in c && "url" in c
    ensures forall s :: s in LaunchPlan(global, profiles).skipped ==>
      s in profiles && !Launchable(MergeConfig(global, s))
    ensures |LaunchPlan(global, profiles).launched| + |LaunchPlan(global, profiles).skipped| == |profiles|
  {
    if profiles != [] {
      var init := profiles[..|profiles| - 1];
      LaunchPlanPartitions(global, init);
      assert forall s :: s in init ==> s in profiles;
    }
  }

  /** A profile is launched exactly when its merged configuration has a cookie file and a URL. */
  lemma {:induction false} LaunchedIff(global: Config, profiles: seq<Config>, i: nat)
    requires i < |profiles|
    ensures i in LaunchOrigins(global, profiles) <==> Launchable(MergeConfig(global, profiles[i]))
  {
    var init := profiles[..|profiles| - 1];
    LaunchOriginsIncrease(global, init);
    if i < |init| {
      assert init[i] == profiles[i];
      LaunchedIff(global, init, i);
    }
  }

  /** For each skipped profile, its index in the list. */
  function SkipOrigins(global: Config, profiles: seq<Config>): seq<nat> {
    if profiles == [] then []
    else
      var idx := SkipOrigins(global, profiles[..|profiles| - 1]);
      if Launchable(MergeConfig(global, profiles[|profiles| - 1])) then idx else idx + [|profiles| - 1]
  }

  /** The skip origins are profile indices in strictly increasing order. */
  lemma {:induction false} SkipOriginsIncrease(global: Config, profiles: seq<Config>)
    ensures forall k :: 0 <= k < |SkipOrigins(global, profiles)| ==>
      SkipOrigins(global, profiles)[k] < |profiles|
    ensures forall k1, k2 :: 0 <= k1 < k2 < |SkipOrigins(global, profiles)| ==>
      SkipOrigins(global, profiles)[k1] < SkipOrigins(global, profiles)[k2]
  {
    if profiles != [] {
      var init := profiles[..|profiles| - 1];
      var idx := SkipOrigins(global, init);
      SkipOriginsIncrease(global, init);
      if !Launchable(MergeConfig(global, profiles[|profiles| - 1])) {
        var ext := idx + [|init|];
        assert SkipOrigins(global, profiles) == ext;
        assert forall k :: 0 <= k < |idx| ==> ext[k] == idx[k];
      }
    }
  }

  /** Skipped profile k (one warning each) is the profile at SkipOrigins[k]. */
  lemma {:induction false} SkippedFromOrigins(global: Config, profiles: seq<Config>)
    ensures |SkipOrigins(global, profiles)| == |LaunchPlan(global, profiles).skipped|
    ensures forall k :: 0 <= k < |SkipOrigins(global, profiles)| && SkipOrigins(global, profiles)[k] < |profiles| ==>
      LaunchPlan(global, profiles).skipped[k] == profiles[SkipOrigins(global, profiles)[k]]
  {
    if profiles != [] {
      var init := profiles[..|profiles| - 1];
      var last := profiles[|profiles| - 1];
      var p, idx := LaunchPlan(global, init), SkipOrigins(global, init);
      SkippedFromOrigins(global, init);
      SkipOriginsIncrease(global, init);
      assert forall k :: 0 <= k < |init| ==> init[k] == profiles[k];
      if !Launchable(MergeConfig(global, last)) {
        var skipped, origins := p.skipped + [last], idx + [|init|];
        assert LaunchPlan(global, profiles).skipped == skipped;
        assert SkipOrigins(global, profiles) == origins;
        forall k | 0 <= k < |origins|
          ensures skipped[k] == profiles[origins[k]]
        {
          if k < |idx| { assert origins[k] == idx[k] && skipped[k] == p.skipped[k]; }
        }
      } else {
        assert LaunchPlan(global, profiles).skipped == p.skipped;
        assert SkipOrigins(global, profiles) == idx;
      }
    }
  }

  /** A profile is skipped exactly when its merged configuration lacks a cookie file or a URL. */
  lemma {:induction false} SkippedIff(global: Config, profiles: seq<Config>, i: nat)
    requires i < |profiles|
    ensures i in SkipOrigins(global, profiles) <==> !Launchable(MergeConfig(global, profiles[i]))
  {
    var init := profiles[..|profiles| - 1];
    SkipOriginsIncrease(global, init);
    if i < |init| {
      assert init[i] == profiles[i];
      SkippedIff(global, init, i);
    }
  }

  /**
   * Every profile is either launched, with its merged configuration, or
   * skipped, and exactly the launchable ones are launched; launched ones
   * keep the list order and all have a cookie file and a URL; skipped ones
   * lack one of them even after the merge.
   */
  lemma LaunchPlanIsFilter(global: Config, profiles: seq<Config>)
    ensures |LaunchOrigins(global, profiles)| == |LaunchPlan(global, profiles).launched|
    ensures forall k :: 0 <= k < |LaunchOrigins(global, profiles)| ==>
      LaunchOrigins(global, profiles)[k] < |profiles|
      && LaunchPlan(global, profiles).launched[k] == MergeConfig(global, profiles[LaunchOrigins(global, profiles)[k]])
    ensures forall k1, k2 :: 0 <= k1 < k2 < |LaunchOrigins(global, profiles)| ==>
      LaunchOrigins(global, profiles)[k1] < LaunchOrigins(global, profiles)[k2]
    ensures forall c :: c in LaunchPlan(global, profiles).launched ==> "cookie_file" in c && "url" in c
    ensures forall s :: s in LaunchPlan(global, profiles).skipped ==>
      s in profiles && !Launchable(MergeConfig(global, s))
    ensures |LaunchPlan(global, profiles).launched| + |LaunchPlan(global, profiles).skipped| == |profiles|
    ensures forall i :: 0 <= i < |profiles| ==>
      (i in LaunchOrigins(global, profiles) <==> Launchable(MergeConfig(global, profiles[i])))
  {
    LaunchOriginsIncrease(global, profiles);
    LaunchedFromOrigins(global, profiles);
    LaunchPlanPartitions(global, profiles);
    forall i | 0 <= i < |profiles|
      ensures i in LaunchOrigins(global, profiles) <==> Launchable(MergeConfig(global, profiles[i]))
    {
      LaunchedIff(global, profiles, i);
    }
  }

  /** The profile loop of `main`: merge, skip or launch, in list order. */
  method StartInstances(global: Config, profiles: seq<Config>)
    returns (launched: seq<Config>, skipped: seq<Config>)
    ensures LaunchPlan(global, profiles) == Plan(launched, skipped)
  {
    launched, skipped := [], [];
    for i := 0 to |profiles|
      invariant LaunchPlan(global, profiles[..i]) == Plan(launched, skipped)
    {
      var profile := profiles[i];
      assert profiles[..i + 1][..i] == profiles[..i];
      var finalConfig := global;
      finalConfig := finalConfig + profile;
      if "cookie_file" !in finalConfig || "url" !in finalConfig {
        skipped := skipped + [profile];
        continue;
      }
      launched := launched + [finalConfig];
    }
    assert profiles[..|profiles|] == profiles;
  }
}
