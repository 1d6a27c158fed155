/** The payload schemas of the command types: what is refused and what is normalised. */
module CommandPayloads {
  import opened Common
  import opened Mac
  import opened JsonValues

  const TYPES: set<string> := {
    "relay_on", "relay_off", "relay_toggle", "relay_cycle", "device_restart", "factory_reset", "set_mode",
    "apply_config", "check_firmware", "start_firmware_update", "lan_scan", "lan_proxy", "lan_ota_push"}
  const MODES: set<string> := {"smart_plug", "internet_watchdog", "device_watchdog"}
  const CONFIG_KEYS: set<string> := {
    "device_name", "relay_restore_behavior", "monitor_interval_seconds", "boot_warmup_seconds", "manual_button_enabled",
    "internet", "device", "notifications", "power"}

  predicate StartsWith(s: string, prefix: string) {
    prefix <= s
  }

  function Kept(p: Fields, k: string): Fields {
    if k in p then map[k := p[k]] else map[]
  }

  /** The request method of a proxied call, GET unless given; text is upper-cased. */
  function Method(v: Json): Option<string> {
    if !Truthy(v) then Some("GET") else if v.Str? then Some(Upper(v.s)) else None
  }

  function LanScan(p: Fields): Option<Fields> {
    var from, to := Get(p, "start"), Get(p, "end");
    if IsInt(from) && IsInt(to) && 1 <= IntOf(from) <= IntOf(to) <= 254
    then Some(map["start" := from, "end" := to]) else None
  }

  function LanProxy(p: Fields): Option<Fields> {
    var ip, path, verb := Get(p, "ip"), Get(p, "path"), Method(Get(p, "method"));
    if ip.Str? && ip.s != "" && path.Str? && StartsWith(path.s, "/") && verb.Some? && verb.value in {"GET", "POST"}
    then Some(map["ip" := ip, "path" := path, "method" := Str(verb.value)] + Kept(p, "body")
              + if "headers" in p && p["headers"].Obj? then Kept(p, "headers") else map[])
    else None
  }

  function LanOtaPush(p: Fields): Option<Fields> {
    var ip, url := Get(p, "ip"), Get(p, "url");
    if ip.Str? && ip.s != "" && url.Str? && (StartsWith(url.s, "http://") || StartsWith(url.s, "https://"))
    then Some(map["ip" := ip, "url" := url] + Kept(p, "sha256")) else None
  }

  function Validate(kind: string, p: Fields): Option<Fields> {
    match kind
    case "set_mode" =>
      if Get(p, "mode").Str? && Get(p, "mode").s in MODES then Some(map["mode" := p["mode"]]) else None
    case "apply_config" =>
      if p != map[] && p.Keys <= CONFIG_KEYS then Some(p) else None
    case "relay_cycle" =>
      if forall k | k in ["power_off_seconds", "post_reboot_holdoff_seconds"] ::
           k in p ==> IsInt(p[k]) then Some(p) else None
    case "lan_scan" => LanScan(p)
    case "lan_proxy" => LanProxy(p)
    case "lan_ota_push" => LanOtaPush(p)
    case _ => Some(p)
  }

  /** q is p cut down to some of its keys, save that the request method may be new. */
  predicate CutFrom(q: Fields, p: Fields) {
    q.Keys <= p.Keys + {"method"} && forall k | k in q && k != "method" :: k in p && q[k] == p[k]
  }

  lemma LanProxyIsNormal(p: Fields)
    requires LanProxy(p).Some?
    ensures LanProxy(LanProxy(p).value) == LanProxy(p) && CutFrom(LanProxy(p).value, p)
  {
    var q := LanProxy(p).value;
    var verb := Method(Get(p, "method")).value;
    assert q["ip"] == p["ip"] && q["path"] == p["path"] && q["method"] == Str(verb);
    assert Upper(verb) == verb;
    assert Method(Get(q, "method")) == Some(verb);
    assert LanProxy(q).Some?;
    assert Kept(q, "body") == Kept(p, "body");
    var headers := if "headers" in p && p["headers"].Obj? then Kept(p, "headers") else map[];
    assert (if "headers" in q && q["headers"].Obj? then Kept(q, "headers") else map[]) == headers;
  }

  lemma LanOtaPushIsNormal(p: Fields)
    requires LanOtaPush(p).Some?
    ensures LanOtaPush(LanOtaPush(p).value) == LanOtaPush(p) && CutFrom(LanOtaPush(p).value, p)
  {
  }

  /** Validating is idempotent, and invents nothing but the request method. */
  lemma ValidatedIsNormal(kind: string, p: Fields)
    requires Validate(kind, p).Some?
    ensures Validate(kind, Validate(kind, p).value) == Validate(kind, p)
    ensures CutFrom(Validate(kind, p).value, p)
  {
    match kind
    case "lan_proxy" => LanProxyIsNormal(p);
    case "lan_ota_push" => LanOtaPushIsNormal(p);
    case _ =>
  }
}
