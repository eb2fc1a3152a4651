/**
 * Attribution capture (src/utils/utmTracker.js): the campaign parameters
 * read from the landing URL's query string, the referrer, the device facts
 * and a first-visit flag, merged into one tracking record that is kept in
 * the tab's session storage.
 *
 * The query string is given already split and percent-decoded, as the list
 * of name-value pairs a `URLSearchParams` object holds; the page URL, the
 * document referrer, the clock and the device facts are parameters.
 */
module UtmTracker {
  import opened Wrappers

  /** The name-value pairs of a query string, in order. */
  type Query = seq<(string, string)>

  /**
   * `urlParams.get(key)`: the value of the first pair named `key`, or None
   * (`null`) when there is none (WHATWG URL Standard, section 6.2, `get`).
   */
  function Get(q: Query, key: string): (r: Option<string>)
    ensures r.Some? <==> exists i :: 0 <= i < |q| && q[i].0 == key
  {
    if q == [] then None
    else if q[0].0 == key then Some(q[0].1)
    else
      var r := Get(q[1..], key);
      assert forall i :: 1 <= i < |q| ==> q[i] == q[1..][i - 1];
      r
  }

  /** `get` returns the value of the first pair with that name, and only that. */
  lemma {:induction false} GetIsFirstMatch(q: Query, key: string, v: string)
    ensures Get(q, key) == Some(v) <==>
      exists i :: 0 <= i < |q| && q[i] == (key, v) && forall j :: 0 <= j < i ==> q[j].0 != key
  {
    if q != [] && q[0].0 != key {
      GetIsFirstMatch(q[1..], key, v);
      if Get(q, key) == Some(v) {
        var i :| 0 <= i < |q[1..]| && q[1..][i] == (key, v) && forall j :: 0 <= j < i ==> q[1..][j].0 != key;
        assert q[i + 1] == (key, v);
        assert forall j :: 0 <= j < i + 1 ==> q[j].0 != key by {
          forall j | 0 <= j < i + 1 ensures q[j].0 != key {
            if j > 0 { assert q[j] == q[1..][j - 1]; }
          }
        }
      }
      if exists i :: 0 <= i < |q| && q[i] == (key, v) && forall j :: 0 <= j < i ==> q[j].0 != key {
        var i :| 0 <= i < |q| && q[i] == (key, v) && forall j :: 0 <= j < i ==> q[j].0 != key;
        assert i > 0;
        assert q[1..][i - 1] == (key, v);
        assert forall j :: 0 <= j < i - 1 ==> q[1..][j].0 != key by {
          forall j | 0 <= j < i - 1 ensures q[1..][j].0 != key { assert q[1..][j] == q[j + 1]; }
        }
      }
    }
  }

  /** A JavaScript truthiness test on the result of `get`: present and not empty. */
  predicate Truthy(v: Option<string>) {
    v.Some? && v.value != ""
  }

  const UtmKeys: seq<string> := ["utm_source", "utm_medium", "utm_campaign", "utm_term", "utm_content"]
  const SourceKeys: seq<string> := ["source", "ref", "referrer"]

  /** The campaign keys among `keys` that carry a non-empty value, with that value. */
  function CampaignFields(q: Query, keys: seq<string>): map<string, string> {
    map k | k in keys && Truthy(Get(q, k)) :: Get(q, k).value
  }

  /**
   * The fallback source: the value of the last of `keys` that carries a
   * non-empty value, since each later key overwrites the earlier ones.
   */
  function FallbackSource(q: Query, keys: seq<string>): Option<string>
    decreases |keys|
  {
    if keys == [] then None
    else if Truthy(Get(q, keys[|keys| - 1])) then Get(q, keys[|keys| - 1])
    else FallbackSource(q, keys[..|keys| - 1])
  }

  /** The campaign fields with the fallback added as `source` when they lack `utm_source`. */
  function WithFallback(utm: map<string, string>, fallback: Option<string>): map<string, string> {
    if "utm_source" !in utm && fallback.Some? then utm["source" := fallback.value] else utm
  }

  /** The map `getUTMParameters` builds from a query, written without its loops. */
  function Extracted(q: Query): map<string, string> {
    WithFallback(CampaignFields(q, UtmKeys), FallbackSource(q, SourceKeys))
  }

  /** `getUTMParameters()`: the two `forEach` loops over the campaign and the fallback keys. */
  method GetUTMParameters(q: Query) returns (m: map<string, string>)
    ensures m == Extracted(q)
  {
    var utm := CopyCampaignKeys(q);
    m := AddFallbackSource(q, utm);
  }

  /** The first loop: each campaign key with a non-empty value is copied. */
  method CopyCampaignKeys(q: Query) returns (m: map<string, string>)
    ensures m == CampaignFields(q, UtmKeys)
  {
    m := map[];
    var i := 0;
    while i < |UtmKeys|
      invariant 0 <= i <= |UtmKeys|
      invariant m == CampaignFields(q, UtmKeys[..i])
    {
      var key := UtmKeys[i];
      var value := Get(q, key);
      CampaignStep(q, UtmKeys[..i], key);
      if value.Some? && value.value != "" {
        m := m[key := value.value];
      }
      assert UtmKeys[..i + 1] == UtmKeys[..i] + [key];
      i := i + 1;
    }
    assert UtmKeys[..i] == UtmKeys;
  }

  /**
   * The second loop: each fallback key with a non-empty value overwrites
   * `source`, as long as the map has no `utm_source`.
   */
  method AddFallbackSource(q: Query, utm: map<string, string>) returns (m: map<string, string>)
    ensures m == WithFallback(utm, FallbackSource(q, SourceKeys))
  {
    m := utm;
    var j := 0;
    while j < |SourceKeys|
      invariant 0 <= j <= |SourceKeys|
      invariant m == WithFallback(utm, FallbackSource(q, SourceKeys[..j]))
    {
      var key := SourceKeys[j];
      var value := Get(q, key);
      assert "utm_source" in m <==> "utm_source" in utm by { assert "source"[0] != "utm_source"[0]; }
      ghost var prefix := SourceKeys[..j + 1];
      assert prefix[..j] == SourceKeys[..j] && prefix[j] == key;
      FallbackStep(q, prefix);
      if value.Some? && value.value != "" && "utm_source" !in m {
        m := m["source" := value.value];
      }
      j := j + 1;
    }
    assert SourceKeys[..j] == SourceKeys;
  }

  /** One more key in the campaign loop adds that key exactly when it carries a non-empty value. */
  lemma CampaignStep(q: Query, keys: seq<string>, key: string)
    ensures CampaignFields(q, keys + [key]) ==
      if Truthy(Get(q, key)) then CampaignFields(q, keys)[key := Get(q, key).value] else CampaignFields(q, keys)
  {
  }

  /** One more key in the fallback loop takes over when it carries a non-empty value. */
  lemma FallbackStep(q: Query, keys: seq<string>)
    requires keys != []
    ensures FallbackSource(q, keys) ==
      if Truthy(Get(q, keys[|keys| - 1])) then Get(q, keys[|keys| - 1]) else FallbackSource(q, keys[..|keys| - 1])
  {
  }

  /**
   * The result holds only the five campaign keys and `source`, every value
   * in it is non-empty, and a campaign key is in it exactly when the query
   * gives it a non-empty value, the value of its first occurrence.
   */
  lemma ExtractedFields(q: Query)
    ensures forall k :: k in Extracted(q) ==> k in UtmKeys || k == "source"
    ensures forall k :: k in Extracted(q) ==> Extracted(q)[k] != ""
    ensures forall k :: k in UtmKeys ==>
      (k in Extracted(q) <==> Truthy(Get(q, k))) && (k in Extracted(q) ==> Extracted(q)[k] == Get(q, k).value)
  {
    FallbackTruthy(q, SourceKeys);
    assert "source" !in UtmKeys;
  }

  /** A fallback source, when there is one, is the non-empty value of one of the keys. */
  lemma {:induction false} FallbackTruthy(q: Query, keys: seq<string>)
    ensures FallbackSource(q, keys).Some? <==> exists i :: 0 <= i < |keys| && Truthy(Get(q, keys[i]))
    ensures FallbackSource(q, keys).Some? ==> FallbackSource(q, keys).value != ""
    decreases |keys|
  {
    if keys != [] {
      var init := keys[..|keys| - 1];
      FallbackTruthy(q, init);
      assert forall i :: 0 <= i < |init| ==> init[i] == keys[i];
    }
  }

  /**
   * `source` appears exactly when `utm_source` has no non-empty value and
   * one of `source`, `ref`, `referrer` has: a result never holds both.
   */
  lemma SourceOnlyWithoutUtmSource(q: Query)
    ensures "utm_source" in Extracted(q) ==> "source" !in Extracted(q)
    ensures "source" in Extracted(q) <==>
      !Truthy(Get(q, "utm_source"))
      && (Truthy(Get(q, "source")) || Truthy(Get(q, "ref")) || Truthy(Get(q, "referrer")))
  {
    FallbackTruthy(q, SourceKeys);
    assert "source" !in UtmKeys;
    assert "utm_source" in UtmKeys;
  }

  /**
   * Without a `utm_source`, the fallback is the last non-empty one of
   * `source`, `ref` and `referrer`, in that order: `referrer` beats `ref`,
   * which beats `source`.
   */
  lemma FallbackPrecedence(q: Query)
    requires !Truthy(Get(q, "utm_source"))
    ensures Truthy(Get(q, "referrer")) ==>
      "source" in Extracted(q) && Extracted(q)["source"] == Get(q, "referrer").value
    ensures !Truthy(Get(q, "referrer")) && Truthy(Get(q, "ref")) ==>
      "source" in Extracted(q) && Extracted(q)["source"] == Get(q, "ref").value
    ensures !Truthy(Get(q, "referrer")) && !Truthy(Get(q, "ref")) && Truthy(Get(q, "source")) ==>
      "source" in Extracted(q) && Extracted(q)["source"] == Get(q, "source").value
  {
    SourceOnlyWithoutUtmSource(q);
    assert SourceKeys[..2] == ["source", "ref"];
    assert SourceKeys[..2][..1] == ["source"];
    assert ["source"][..0] == [];
    var utm := CampaignFields(q, UtmKeys);
    assert "utm_source" !in utm;
    if !Truthy(Get(q, "referrer")) && !Truthy(Get(q, "ref")) && Truthy(Get(q, "source")) {
      assert FallbackSource(q, SourceKeys) == FallbackSource(q, ["source", "ref"]);
      assert FallbackSource(q, ["source", "ref"]) == FallbackSource(q, ["source"]);
      assert FallbackSource(q, ["source"]) == Get(q, "source");
    }
  }

  /** A query whose only pair is `ref=v`, for a non-empty `v`, yields just `source: v`. */
  lemma RefOnly(v: string)
    requires v != ""
    ensures Extracted([("ref", v)]) == map["source" := v]
  {
  }

  /** `getReferrerInfo().referrer`: `document.referrer`, or `'direct'` when it is empty. */
  function Referrer(documentReferrer: string): (r: string)
    ensures r != ""
    ensures documentReferrer != "" ==> r == documentReferrer
    ensures documentReferrer == "" ==> r == "direct"
  {
    if documentReferrer != "" then documentReferrer else "direct"
  }

  /** `getDeviceInfo()`: facts the browser reports, taken as given. */
  datatype Device = Device(userAgent: string, screenWidth: int, screenHeight: int, language: string, timezone: string)

  /**
   * What one page load sees: the query pairs of `location.search`,
   * `document.referrer`, `location.href`, the ISO time stamp of the clock
   * and the device facts.
   */
  datatype Env = Env(query: Query, documentReferrer: string, href: string, now: string, device: Device)

  /** The tracking record: the spread of the three parts plus `firstVisit`. */
  datatype TrackingData = TrackingData(
    utm: map<string, string>,
    referrer: string,
    landingPage: string,
    timestamp: string,
    device: Device,
    firstVisit: bool)

  /**
   * The record `storeTrackingData` builds for `env` when the visited flag
   * reads `visited`: it always names a referrer, its attribution part holds
   * only campaign keys and `source`, never empty and never `source` beside
   * `utm_source`, and it is a first visit exactly when the flag is missing
   * or empty.
   */
  function Snapshot(env: Env, visited: Option<string>): (d: TrackingData)
    ensures d.referrer != ""
    ensures forall k :: k in d.utm ==> (k in UtmKeys || k == "source") && d.utm[k] != ""
    ensures "utm_source" in d.utm ==> "source" !in d.utm
    ensures d.firstVisit <==> visited.None? || visited.value == ""
  {
    ExtractedFields(env.query);
    SourceOnlyWithoutUtmSource(env.query);
    TrackingData(Extracted(env.query), Referrer(env.documentReferrer), env.href, env.now, env.device, !Truthy(visited))
  }

  /**
   * The two keys of the tab's session storage this code uses:
   * `contwre_tracking`, holding the serialised record, and
   * `contwre_visited`.
   */
  class SessionStorage {
    var tracking: Option<TrackingData>
    var visited: Option<string>

    /** The record is only ever written together with the visited flag. */
    ghost predicate Valid()
      reads this
    {
      tracking.Some? ==> visited == Some("true")
    }

    /** The storage of a new tab: both keys absent. */
    constructor ()
      ensures Valid() && tracking == None && visited == None
    {
      tracking := None;
      visited := None;
    }

    /**
     * `storeTrackingData()`: builds the record, and writes it with the
     * visited flag when the query yields any parameter (a fallback `source`
     * counts) or no record is stored yet; otherwise storage is unchanged.
     */
    method StoreTrackingData(env: Env) returns (data: TrackingData)
      requires Valid()
      modifies this
      ensures Valid() && tracking.Some?
      ensures data == Snapshot(env, old(visited))
      ensures data.firstVisit <==> old(tracking).None? && !Truthy(old(visited))
      ensures if |Extracted(env.query)| > 0 || old(tracking).None?
        then tracking == Some(data) && visited == Some("true")
        else tracking == old(tracking) && visited == old(visited)
    {
      var utm := GetUTMParameters(env.query);
      data := TrackingData(utm, Referrer(env.documentReferrer), env.href, env.now, env.device,
        !(visited.Some? && visited.value != ""));
      if |utm| > 0 || tracking.None? {
        tracking := Some(data);
        visited := Some("true");
      }
    }

    /**
     * `getStoredTrackingData()`: the stored record, without writing, when
     * there is one; otherwise exactly `storeTrackingData()`.
     */
    method GetStoredTrackingData(env: Env) returns (data: TrackingData)
      requires Valid()
      modifies this
      ensures Valid() && tracking == Some(data)
      ensures old(tracking).Some? ==> data == old(tracking).value && visited == old(visited)
      ensures old(tracking).None? ==> data == Snapshot(env, old(visited)) && visited == Some("true")
    {
      if tracking.Some? {
        data := tracking.value;
      } else {
        data := StoreTrackingData(env);
      }
    }
  }

  /**
   * One tab's page loads, each calling `storeTrackingData()` on mount: only
   * the first load is a first visit, and a record is stored from then on.
   */
  method PageLoads(envs: seq<Env>) returns (records: seq<TrackingData>)
    requires |envs| > 0
    ensures |records| == |envs|
    ensures records[0].firstVisit
    ensures forall k :: 0 < k < |records| ==> !records[k].firstVisit
  {
    var storage := new SessionStorage();
    var first := storage.StoreTrackingData(envs[0]);
    records := [first];
    var k := 1;
    while k < |envs|
      invariant 1 <= k <= |envs| && |records| == k
      invariant storage.Valid() && storage.tracking.Some?
      invariant records[0].firstVisit
      invariant forall j :: 0 < j < k ==> !records[j].firstVisit
    {
      var next := storage.StoreTrackingData(envs[k]);
      records := records + [next];
      k := k + 1;
    }
  }

  /**
   * A campaign landing followed by an internal navigation whose query yields
   * nothing: the stored record is still the campaign landing's, with its
   * `utm_source`.
   */
  method CampaignPersists(landing: Env, later: Env) returns (stored: TrackingData)
    requires Truthy(Get(landing.query, "utm_source"))
    requires Extracted(later.query) == map[]
    ensures stored == Snapshot(landing, None)
    ensures "utm_source" in stored.utm && stored.utm["utm_source"] == Get(landing.query, "utm_source").value
    ensures stored.firstVisit
  {
    var storage := new SessionStorage();
    var _ := storage.StoreTrackingData(landing);
    var _ := storage.StoreTrackingData(later);
    stored := storage.GetStoredTrackingData(later);
    ExtractedFields(landing.query);
  }

  /**
   * A later page load whose query has only `ref=v` overwrites the stored
   * campaign record: the stored record then has `source: v` and no
   * `utm_source`, and is no longer a first visit.
   */
  method RefLinkOverwrites(landing: Env, later: Env, v: string) returns (stored: TrackingData)
    requires v != "" && later.query == [("ref", v)]
    ensures stored.utm == map["source" := v]
    ensures "utm_source" !in stored.utm && !stored.firstVisit
  {
    var storage := new SessionStorage();
    var _ := storage.StoreTrackingData(landing);
    RefOnly(v);
    var _ := storage.StoreTrackingData(later);
    stored := storage.GetStoredTrackingData(landing);
  }

  /** Reading the stored record twice gives the same record both times. */
  method ReadTwice(first: Env, second: Env) returns (a: TrackingData, b: TrackingData)
    ensures a == b
    ensures a == Snapshot(first, None) && a.firstVisit
  {
    var storage := new SessionStorage();
    a := storage.GetStoredTrackingData(first);
    b := storage.GetStoredTrackingData(second);
  }
}
