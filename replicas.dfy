/**
 * The blue/green replica bookkeeping of `locallib.php`: two replica tables,
 * one stored setting naming the active one (which readers use) and the
 * other one, inactive, which the next import fills.
 */
module Replicas {
  import opened Php
  import opened Errors
  import opened SiteState

  /** A pair of replica names and the setting that stores the active one. */
  datatype Scheme = Scheme(a: string, b: string, setting: string)

  const USERIMPORT_A := "userimport_a"
  const USERIMPORT_B := "userimport_b"
  const USERIMPORT_ACTIVE_REPLICA_SETTING := "userimport_activereplica"

  /** The user import replicas `USERIMPORT_REPLICAS` and their setting. */
  const UserReplicas := Scheme(USERIMPORT_A, USERIMPORT_B, USERIMPORT_ACTIVE_REPLICA_SETTING)

  /** Two distinct replica names, neither PHP-empty. */
  predicate ValidScheme(s: Scheme) {
    s.a != s.b && !Empty(s.a) && !Empty(s.b)
  }

  lemma UserReplicasValid()
    ensures ValidScheme(UserReplicas)
  {
    assert USERIMPORT_A[11] != USERIMPORT_B[11];
    assert |USERIMPORT_A| > 1 && |USERIMPORT_B| > 1;
  }

  /** `in_array($replicaname, USERIMPORT_REPLICAS, true)`. */
  predicate IsReplica(s: Scheme, name: string) {
    name == s.a || name == s.b
  }

  /**
   * `local_xmlsync_get_userimport_active_replica`: the stored setting, or
   * the first replica when it is unset or PHP-empty. A stored value is
   * returned as it is, even when it names no replica.
   */
  function Active(s: Scheme, settings: map<string, string>): (r: string)
    requires ValidScheme(s)
    ensures !Empty(r)
    ensures Empty(Setting(settings, s.setting)) ==> r == s.a
    ensures !Empty(Setting(settings, s.setting)) ==> r == Setting(settings, s.setting)
  {
    var active := Setting(settings, s.setting);
    if Empty(active) then s.a else active
  }

  /**
   * `local_xmlsync_get_userimport_inactive_replica`: the second replica when
   * the first is active, the first otherwise (also when the stored active
   * name is no replica).
   */
  function Inactive(s: Scheme, settings: map<string, string>): (r: string)
    requires ValidScheme(s)
    ensures r != Active(s, settings)
    ensures IsReplica(s, r)
    ensures IsReplica(s, Active(s, settings)) ==> (r == s.a <==> Active(s, settings) == s.b)
    ensures r == s.b <==> Active(s, settings) == s.a
    ensures !IsReplica(s, Active(s, settings)) ==> r == s.a
  {
    if Active(s, settings) == s.a then s.b else s.a
  }

  /** `local_xmlsync_validate_userimport_replica`: raises unless the name is a replica. */
  function Validate(s: Scheme, name: string): (r: Result<()>)
    ensures r.Ok? <==> IsReplica(s, name)
    ensures r.Err? ==> r.error == InvalidReplica(name)
  {
    if IsReplica(s, name) then Ok(()) else Err(InvalidReplica(name))
  }

  /**
   * `local_xmlsync_get_userimport_metadata`: raises for a name that is no
   * replica, otherwise the replica's stored metadata, null when none.
   */
  function GetMetadata(s: Scheme, st: Store, name: string): (r: Result<Option<Metadata>>)
    ensures r.Err? <==> !IsReplica(s, name)
    ensures r.Err? ==> r.error == InvalidReplica(name)
    ensures r == Ok(None) <==> IsReplica(s, name) && name !in st.metadata
    ensures r.Ok? && r.value.Some? ==> name in st.metadata && r.value.value == st.metadata[name]
  {
    match Validate(s, name)
    case Err(e) => Err(e)
    case Ok(_) => if name in st.metadata then Ok(Some(st.metadata[name])) else Ok(None)
  }

  /**
   * `local_xmlsync_set_userimport_active_replica` on the settings: raises
   * for a name that is no replica, otherwise stores the name.
   */
  function SetActive(s: Scheme, settings: map<string, string>, name: string): (r: Result<map<string, string>>)
    requires ValidScheme(s)
    ensures r.Err? <==> !IsReplica(s, name)
    ensures r.Err? ==> r.error == InvalidReplica(name)
    ensures r.Ok? ==> Active(s, r.value) == name
    ensures r.Ok? ==> forall k :: k != s.setting ==> (k in r.value <==> k in settings)
    ensures r.Ok? ==> forall k :: k != s.setting && k in settings ==> r.value[k] == settings[k]
  {
    match Validate(s, name)
    case Err(e) => Err(e)
    case Ok(_) => Ok(settings[s.setting := name])
  }

  /** The imperative `set_active`: only the one setting changes, and only for a replica name. */
  method SetActiveReplica(site: Site, s: Scheme, name: string) returns (r: Result<()>)
    requires ValidScheme(s)
    modifies site
    ensures r == Validate(s, name)
    ensures r.Err? ==> site.Snapshot() == old(site.Snapshot())
    ensures r.Ok? ==> site.Snapshot() == old(site.Snapshot()).(settings := SetActive(s, old(site.settings), name).value)
  {
    r := Validate(s, name);
    if r.Ok? {
      site.SetConfig(s.setting, name);
    }
  }

  /** The stored setting is unset or PHP-empty, or names a replica. */
  predicate StoredValid(s: Scheme, settings: map<string, string>) {
    Empty(Setting(settings, s.setting)) || IsReplica(s, Setting(settings, s.setting))
  }

  /** Names that are no replica are never stored: `set_active` keeps the setting valid. */
  lemma {:induction false} SetActiveKeepsValid(s: Scheme, settings: map<string, string>, name: string)
    requires ValidScheme(s)
    ensures SetActive(s, settings, name).Ok? ==> StoredValid(s, SetActive(s, settings, name).value)
    ensures StoredValid(s, settings) ==> IsReplica(s, Active(s, settings))
  {
    if SetActive(s, settings, name).Ok? {
      assert Setting(SetActive(s, settings, name).value, s.setting) == name;
    }
  }

  /** Making the inactive replica active swaps the two. */
  lemma SwapReplicas(s: Scheme, settings: map<string, string>)
    requires ValidScheme(s) && IsReplica(s, Active(s, settings))
    ensures SetActive(s, settings, Inactive(s, settings)).Ok?
    ensures Active(s, SetActive(s, settings, Inactive(s, settings)).value) == Inactive(s, settings)
    ensures Inactive(s, SetActive(s, settings, Inactive(s, settings)).value) == Active(s, settings)
  {
  }

  /** Swapping twice restores the original active replica. */
  lemma SwapTwice(s: Scheme, settings: map<string, string>)
    requires ValidScheme(s) && IsReplica(s, Active(s, settings))
    ensures var once := SetActive(s, settings, Inactive(s, settings)).value;
            var twice := SetActive(s, once, Inactive(s, once));
            twice.Ok? && Active(s, twice.value) == Active(s, settings)
  {
    SwapReplicas(s, settings);
    var once := SetActive(s, settings, Inactive(s, settings)).value;
    SwapReplicas(s, once);
  }
}
