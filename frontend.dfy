/** The DBus frontend (`src/frontend.rs`): the install mode reported from
    the recovery environment file, the recovery configuration, and the
    requests it hands to the backend.

    The environment file is given as its parsed key/value map, or `None`
    when there is none. The request channel is given as the sequence of
    requests queued so far and a flag saying whether the send succeeds. */
module Frontend {
  import opened Wrappers

  /** `Mode`, with the discriminants of its `#[repr(u8)]`. */
  datatype Mode = Live | Oem | Recovery | Refresh

  type Env = map<string, string>

  /** `EnvFile::get`: the value stored under `key`, if any. */
  function Get(env: Env, key: string): (v: Option<string>)
    ensures v.Some? <==> key in env
    ensures v.Some? ==> v.value == env[key]
  {
    if key in env then Some(env[key]) else None
  }

  /** `mode as u8`: the four modes have distinct codes below 4. */
  function ModeCode(m: Mode): (c: nat)
    ensures c < 4
    ensures m == Live <==> c == 0
    ensures m == Oem <==> c == 1
    ensures m == Recovery <==> c == 2
    ensures m == Refresh <==> c == 3
  {
    match m
    case Live => 0
    case Oem => 1
    case Recovery => 2
    case Refresh => 3
  }

  /** `Frontend::mode` before the cast: Live without an environment file,
      otherwise Oem when OEM_MODE is "1", Refresh when MODE is "refresh",
      and Recovery in every other case. */
  function ModeOf(env: Option<Env>): (m: Mode)
    ensures env.None? ==> m == Live
    ensures env.Some? ==> m != Live
  {
    if env.None? then Live
    else if Get(env.value, "OEM_MODE") == Some("1") then Oem
    else if Get(env.value, "MODE") == Some("refresh") then Refresh
    else Recovery
  }

  /** The mode is decided by the two keys alone, with OEM_MODE taking
      priority over MODE, stated as one equivalence per mode. */
  lemma ModeSpec(env: Option<Env>)
    ensures ModeOf(env) == Live <==> env.None?
    ensures ModeOf(env) == Oem <==> env.Some? && "OEM_MODE" in env.value && env.value["OEM_MODE"] == "1"
    ensures ModeOf(env) == Refresh <==>
              && env.Some? && !("OEM_MODE" in env.value && env.value["OEM_MODE"] == "1")
              && "MODE" in env.value && env.value["MODE"] == "refresh"
    ensures ModeOf(env) == Recovery <==>
              && env.Some? && !("OEM_MODE" in env.value && env.value["OEM_MODE"] == "1")
              && !("MODE" in env.value && env.value["MODE"] == "refresh")
  {
  }

  /** Keys other than OEM_MODE and MODE never change the mode. */
  lemma ModeIgnoresOtherKeys(env: Env, key: string, value: string)
    requires key != "OEM_MODE" && key != "MODE"
    ensures ModeOf(Some(env[key := value])) == ModeOf(Some(env))
  {
    assert Get(env[key := value], "OEM_MODE") == Get(env, "OEM_MODE");
    assert Get(env[key := value], "MODE") == Get(env, "MODE");
  }

  const NoRecoveryConfig := "no recovery config found"

  /** `Frontend::recovery_config`: the whole key/value map of the
      environment file, unchanged, or a failure when there is no file. */
  function RecoveryConfig(env: Option<Env>): (r: Result<Env, string>)
    ensures r.Failure? <==> env.None?
    ensures r.Failure? ==> r.error == NoRecoveryConfig
    ensures r.Success? ==> r.value == env.value
  {
    match env
    case Some(store) => Success(store)
    case None => Failure(NoRecoveryConfig)
  }

  /** The requests the frontend passes to the backend (`Request` of
      `src/main.rs`). */
  datatype Request =
    | Decrypt(device: string, key: string)
    | DiskRescan
    | EncryptedDevices
    | OsEntries
    | OsSearch

  /** The request methods `decrypt`, `disk_rescan`, `encrypted_devices`,
      `os_entries` and `os_search`: the request is queued when the send succeeds, the
      send's outcome is discarded, and the call always answers `Ok`. */
  function Submit(queue: seq<Request>, sendOk: bool, req: Request): (r: (Result<(), string>, seq<Request>))
    ensures r.0 == Success(())
    ensures sendOk ==> r.1 == queue + [req]
    ensures !sendOk ==> r.1 == queue
    ensures |r.1| <= |queue| + 1 && r.1[..|queue|] == queue
  {
    (Success(()), if sendOk then queue + [req] else queue)
  }
}
