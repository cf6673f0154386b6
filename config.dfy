/**
 * The settings the firmware keeps in its flash files, reduced to the rules
 * that fill in defaults when saving and that interpret the values when
 * loading, and the login check of the web pages. A JSON document is a map
 * from key to string value.
 */
module Config {
  import opened Wrappers
  import opened Text

  type Json = map<string, string>

  /**
   * Reading a key: `doc[key].as<String>()` gives the text "null" for a missing
   * key; the guarded read `containsKey(key) ? doc[key] : ""` passes `missing := ""`.
   */
  function Lookup(doc: Json, key: string, missing: string := "null"): (v: string)
    ensures key in doc ==> v == doc[key]
    ensures key !in doc ==> v == missing
  {
    if key in doc then doc[key] else missing
  }

  // ---------------------------------------------------------------- MQTT

  datatype MqttSettings = MqttSettings(
    fn: string, host: string, port: string, user: string, password: string, topic: string, rootCaCert: string)

  const DEFAULT_MQTT_PORT: string := "1883"
  /** A CA certificate is stored only when it is longer than this. */
  const MIN_ROOT_CA_CERT_LENGTH: nat := 500

  /** `saveMqtt`: fill in the port, the friendly name and the topic when empty; keep only a plausible CA certificate. */
  function SaveMqtt(m: MqttSettings, hostnamePrefix: string, deviceId: string, defaultTopic: string): (doc: Json)
    ensures doc.Keys == {"mqtt_fn", "mqtt_host", "mqtt_port", "mqtt_user", "mqtt_pwd", "mqtt_topic"} +
                        (if |m.rootCaCert| > MIN_ROOT_CA_CERT_LENGTH then {"mqtt_root_ca_cert"} else {})
    ensures doc["mqtt_port"] == (if m.port == "" then DEFAULT_MQTT_PORT else m.port)
    ensures doc["mqtt_fn"] == (if m.fn == "" then ToLower(hostnamePrefix + deviceId) else m.fn)
    ensures doc["mqtt_topic"] == (if m.topic == "" then defaultTopic else m.topic)
    ensures doc["mqtt_host"] == m.host && doc["mqtt_user"] == m.user && doc["mqtt_pwd"] == m.password
  {
    var port := if m.port == "" then DEFAULT_MQTT_PORT else m.port;
    var fn := if m.fn == "" then ToLower(hostnamePrefix + deviceId) else m.fn;
    var topic := if m.topic == "" then defaultTopic else m.topic;
    var doc := map["mqtt_fn" := fn, "mqtt_host" := m.host, "mqtt_port" := port,
                   "mqtt_user" := m.user, "mqtt_pwd" := m.password, "mqtt_topic" := topic];
    if m.rootCaCert != "" && |m.rootCaCert| > MIN_ROOT_CA_CERT_LENGTH then doc["mqtt_root_ca_cert" := m.rootCaCert] else doc
  }

  /** `loadMqtt`: every key is guarded, so a stored key loads as stored and a missing one as "". */
  function LoadMqtt(doc: Json): (m: MqttSettings)
    ensures m.fn == (if "mqtt_fn" in doc then doc["mqtt_fn"] else "")
    ensures m.host == (if "mqtt_host" in doc then doc["mqtt_host"] else "")
    ensures m.port == (if "mqtt_port" in doc then doc["mqtt_port"] else "")
    ensures m.user == (if "mqtt_user" in doc then doc["mqtt_user"] else "")
    ensures m.password == (if "mqtt_pwd" in doc then doc["mqtt_pwd"] else "")
    ensures m.topic == (if "mqtt_topic" in doc then doc["mqtt_topic"] else "")
    ensures m.rootCaCert == (if "mqtt_root_ca_cert" in doc then doc["mqtt_root_ca_cert"] else "")
  {
    MqttSettings(Lookup(doc, "mqtt_fn", ""), Lookup(doc, "mqtt_host", ""), Lookup(doc, "mqtt_port", ""),
                 Lookup(doc, "mqtt_user", ""), Lookup(doc, "mqtt_pwd", ""), Lookup(doc, "mqtt_topic", ""),
                 Lookup(doc, "mqtt_root_ca_cert", ""))
  }

  /** `mqtt_config`: MQTT is used only with a friendly name, a broker, a port and a topic. */
  predicate MqttConfigured(m: MqttSettings)
  {
    m.fn != "" && m.host != "" && m.port != "" && m.topic != ""
  }

  /**
   * Saving then loading keeps what was entered, with the defaults in place of
   * empty fields; the result counts as configured exactly when a broker was
   * given (the defaults being non-empty).
   */
  lemma MqttSaveLoad(m: MqttSettings, hostnamePrefix: string, deviceId: string, defaultTopic: string)
    requires hostnamePrefix + deviceId != "" && defaultTopic != ""
    ensures var l := LoadMqtt(SaveMqtt(m, hostnamePrefix, deviceId, defaultTopic));
            && l.host == m.host && l.user == m.user && l.password == m.password
            && (m.port != "" ==> l.port == m.port) && (m.fn != "" ==> l.fn == m.fn)
            && (m.topic != "" ==> l.topic == m.topic)
            && l.rootCaCert == (if |m.rootCaCert| > MIN_ROOT_CA_CERT_LENGTH then m.rootCaCert else "")
            && (MqttConfigured(l) <==> m.host != "")
  {
    var doc := SaveMqtt(m, hostnamePrefix, deviceId, defaultTopic);
    assert |ToLower(hostnamePrefix + deviceId)| == |hostnamePrefix + deviceId| > 0;
    assert doc["mqtt_fn"] != "" && doc["mqtt_port"] != "" && doc["mqtt_topic"] != "";
  }

  // ---------------------------------------------------------------- WiFi

  datatype WifiSettings = WifiSettings(
    apSsid: string, apPassword: string, hostName: string, otaPassword: string,
    localIp: string, gatewayIp: string, subnet: string, dnsIp: string)

  /** An address field long enough to be an IPv4 address ("1.2.3.4" has seven characters). */
  predicate PlausibleIp(s: string)
  {
    s != "" && |s| > 6
  }

  /**
   * `saveWifi`: an empty host name becomes the device's default one; the
   * static address is stored only when address, gateway and subnet are all
   * plausible, and the DNS server only along with them.
   */
  function SaveWifi(w: WifiSettings, defaultHostName: string): (doc: Json)
    ensures {"ap_ssid", "ap_pwd", "hostname", "ota_pwd"} <= doc.Keys
    ensures doc["hostname"] == (if w.hostName == "" then defaultHostName else w.hostName)
    ensures doc["ap_ssid"] == w.apSsid && doc["ap_pwd"] == w.apPassword && doc["ota_pwd"] == w.otaPassword
    ensures "static_ip" in doc <==> PlausibleIp(w.localIp) && PlausibleIp(w.gatewayIp) && PlausibleIp(w.subnet)
    ensures "static_ip" in doc <==> "static_gw_ip" in doc
    ensures "static_ip" in doc <==> "static_subnet" in doc
    ensures "static_dns_ip" in doc <==> "static_ip" in doc && PlausibleIp(w.dnsIp)
    ensures "static_ip" in doc ==>
              doc["static_ip"] == w.localIp && doc["static_gw_ip"] == w.gatewayIp && doc["static_subnet"] == w.subnet
    ensures "static_dns_ip" in doc ==> doc["static_dns_ip"] == w.dnsIp
    ensures doc.Keys <= {"ap_ssid", "ap_pwd", "hostname", "ota_pwd",
                         "static_ip", "static_gw_ip", "static_subnet", "static_dns_ip"}
  {
    var host := if w.hostName == "" then defaultHostName else w.hostName;
    var doc := map["ap_ssid" := w.apSsid, "ap_pwd" := w.apPassword, "hostname" := host, "ota_pwd" := w.otaPassword];
    if PlausibleIp(w.localIp) && PlausibleIp(w.gatewayIp) && PlausibleIp(w.subnet) then
      var st := doc["static_ip" := w.localIp]["static_gw_ip" := w.gatewayIp]["static_subnet" := w.subnet];
      if PlausibleIp(w.dnsIp) then st["static_dns_ip" := w.dnsIp] else st
    else doc
  }

  // ---------------------------------------------------------------- unit

  datatype UnitSettings = UnitSettings(
    tempUnit: string, supportMode: string, supportFanMode: string, loginPassword: string, tempStep: string,
    languageIndex: string)

  /** `saveUnit`: Celsius, step 1, all modes, all fan speeds, no password and the first language by default. */
  function SaveUnit(u: UnitSettings): (doc: Json)
    ensures doc.Keys == {"unit_tempUnit", "temp_step", "support_mode", "quiet_mode", "login_password", "language_index"}
    ensures doc["unit_tempUnit"] == (if u.tempUnit == "" then "cel" else u.tempUnit)
    ensures doc["temp_step"] == (if u.tempStep == "" then "1" else u.tempStep)
    ensures doc["support_mode"] == (if u.supportMode == "" then "all" else u.supportMode)
    ensures doc["quiet_mode"] == (if u.supportFanMode == "" then "allf" else u.supportFanMode)
    ensures doc["login_password"] == u.loginPassword
    ensures doc["language_index"] == (if u.languageIndex == "" then "0" else u.languageIndex)
  {
    map["unit_tempUnit" := if u.tempUnit == "" then "cel" else u.tempUnit,
        "temp_step" := if u.tempStep == "" then "1" else u.tempStep,
        "support_mode" := if u.supportMode == "" then "all" else u.supportMode,
        "quiet_mode" := if u.supportFanMode == "" then "allf" else u.supportFanMode,
        "login_password" := u.loginPassword,
        "language_index" := if u.languageIndex == "" then "0" else u.languageIndex]
  }

  /** The unit options as the firmware holds them. */
  datatype UnitState = UnitState(
    useFahrenheit: bool, tempStep: string, supportHeatMode: bool, supportQuietMode: bool, loginPassword: string)

  /**
   * `loadUnit`: Fahrenheit, no heat mode and no quiet fan are switched on by
   * their markers only, on top of what the firmware already holds; the step is
   * read as is and the password as "" when missing.
   */
  function LoadUnit(doc: Json, s: UnitState): (r: UnitState)
    ensures r.useFahrenheit <==> s.useFahrenheit || Lookup(doc, "unit_tempUnit") == "fah"
    ensures !r.supportHeatMode <==> !s.supportHeatMode || Lookup(doc, "support_mode") == "nht"
    ensures !r.supportQuietMode <==> !s.supportQuietMode || Lookup(doc, "quiet_mode") == "nqm"
    ensures r.tempStep == Lookup(doc, "temp_step")
    ensures r.loginPassword == Lookup(doc, "login_password", "")
  {
    UnitState(
      s.useFahrenheit || Lookup(doc, "unit_tempUnit") == "fah",
      Lookup(doc, "temp_step"),
      s.supportHeatMode && Lookup(doc, "support_mode") != "nht",
      s.supportQuietMode && Lookup(doc, "quiet_mode") != "nqm",
      Lookup(doc, "login_password", ""))
  }

  /** The unit options at boot, before any file is read. */
  const BOOT_UNIT: UnitState := UnitState(false, "", true, true, "")

  /** What was saved is what is loaded at the next boot, defaults included. */
  lemma UnitSaveLoad(u: UnitSettings)
    ensures var r := LoadUnit(SaveUnit(u), BOOT_UNIT);
            && (r.useFahrenheit <==> u.tempUnit == "fah")
            && (r.supportHeatMode <==> u.supportMode != "nht")
            && (r.supportQuietMode <==> u.supportFanMode != "nqm")
            && r.tempStep == (if u.tempStep == "" then "1" else u.tempStep)
            && r.loginPassword == u.loginPassword
  {
    var doc := SaveUnit(u);
    assert "unit_tempUnit" in doc && "support_mode" in doc && "quiet_mode" in doc && "temp_step" in doc;
    assert "login_password" in doc;
  }

  // ---------------------------------------------------------------- others

  /** The settings stored in the "others" file: the switches and the discovery prefix. */
  datatype Others = Others(haa: bool, haaTopic: string, debugPackets: bool, debugLogs: bool, webPanelDisable: bool)

  function OnOff(b: bool): string
  {
    if b then "ON" else "OFF"
  }

  /** `saveCurrentOthers`: each switch as "ON"/"OFF"; the web panel is stored as enabled, the negation of the flag. */
  function SaveCurrentOthers(o: Others): (doc: Json)
    ensures {"haa", "haat", "debugPckts", "debugLogs", "webPanel"} <= doc.Keys
    ensures "unit_tempUnit" !in doc
    ensures doc["haat"] == o.haaTopic
    ensures forall k :: k in {"haa", "debugPckts", "debugLogs", "webPanel"} ==> doc[k] in {"ON", "OFF"}
  {
    map["haa" := OnOff(o.haa), "haat" := o.haaTopic, "debugPckts" := OnOff(o.debugPackets),
        "debugLogs" := OnOff(o.debugLogs), "webPanel" := OnOff(!o.webPanelDisable)]
  }

  /**
   * `loadOthers`: each switch moves away from its boot value only on its
   * marker, the discovery prefix is read unguarded (a missing key gives
   * "null"), and a "fah" unit switches the display to Fahrenheit. The result
   * pairs the settings with `useFahrenheit`.
   */
  function LoadOthers(doc: Json, boot: Others, useFahrenheit: bool): (r: (Others, bool))
    ensures r.0.haa <==> boot.haa && Lookup(doc, "haa") != "OFF"
    ensures r.0.haaTopic == Lookup(doc, "haat")
    ensures r.0.debugPackets <==> boot.debugPackets || Lookup(doc, "debugPckts") == "ON"
    ensures r.0.debugLogs <==> boot.debugLogs || Lookup(doc, "debugLogs") == "ON"
    ensures r.0.webPanelDisable <==> boot.webPanelDisable || Lookup(doc, "webPanel") == "OFF"
    ensures r.1 <==> useFahrenheit || Lookup(doc, "unit_tempUnit") == "fah"
  {
    (Others(
       boot.haa && Lookup(doc, "haa") != "OFF",
       Lookup(doc, "haat"),
       boot.debugPackets || Lookup(doc, "debugPckts") == "ON",
       boot.debugLogs || Lookup(doc, "debugLogs") == "ON",
       boot.webPanelDisable || Lookup(doc, "webPanel") == "OFF"),
     useFahrenheit || Lookup(doc, "unit_tempUnit") == "fah")
  }

  /** The others settings at boot (`setDefaults`): discovery on under "homeassistant", debugging off, web panel enabled. */
  const BOOT_OTHERS: Others := Others(true, "homeassistant", false, false, false)

  /**
   * Saving the current settings and loading them at the next boot gives them
   * back, and leaves the temperature unit as it was: the saved file holds no unit.
   */
  lemma OthersSaveLoad(o: Others, useFahrenheit: bool)
    ensures LoadOthers(SaveCurrentOthers(o), BOOT_OTHERS, useFahrenheit) == (o, useFahrenheit)
  {
    var doc := SaveCurrentOthers(o);
    assert "haa" in doc && "debugPckts" in doc && "debugLogs" in doc && "webPanel" in doc;
  }

  // ---------------------------------------------------------------- login

  const SESSION_COOKIE: string := "M2MSESSIONID=1"

  /** `pattern` occurs in `s` at position `i`. */
  predicate MatchAt(s: string, pattern: string, i: int)
  {
    0 <= i && i + |pattern| <= |s| && s[i..i + |pattern|] == pattern
  }

  lemma MatchShift(s: string, pattern: string, i: int)
    requires |s| > 0 && i >= 0
    ensures MatchAt(s, pattern, i + 1) <==> MatchAt(s[1..], pattern, i)
  {
    if 0 <= i && i + 1 + |pattern| <= |s| {
      assert s[1..][i..i + |pattern|] == s[i + 1..i + 1 + |pattern|];
    }
  }

  /** `String::indexOf`: the first position of `pattern` in `s`, or -1. */
  function IndexOf(s: string, pattern: string): (r: int)
    ensures r == -1 || MatchAt(s, pattern, r)
    ensures forall i :: 0 <= i && (r == -1 || i < r) ==> !MatchAt(s, pattern, i)
    decreases |s|
  {
    if |s| < |pattern| then -1
    else if s[..|pattern|] == pattern then 0
    else
      var t := IndexOf(s[1..], pattern);
      assert forall j :: 1 <= j ==> (MatchAt(s, pattern, j) <==> MatchAt(s[1..], pattern, j - 1)) by {
        forall j | 1 <= j
          ensures MatchAt(s, pattern, j) <==> MatchAt(s[1..], pattern, j - 1)
        {
          MatchShift(s, pattern, j - 1);
        }
      }
      assert !MatchAt(s, pattern, 0);
      if t < 0 then -1 else t + 1
  }

  /** `is_authenticated`: the request carries a cookie holding the session marker. */
  predicate IsAuthenticated(cookie: Option<string>)
  {
    cookie.Some? && IndexOf(cookie.value, SESSION_COOKIE) != -1
  }

  /** `checkLogin`: a page is served unless the request is not authenticated and a password is set. */
  function CheckLogin(cookie: Option<string>, loginPassword: string): (allowed: bool)
    ensures allowed <==> IsAuthenticated(cookie) || loginPassword == ""
  {
    !(!IsAuthenticated(cookie) && |loginPassword| > 0)
  }

  /** A cookie passes exactly when the session marker occurs somewhere in it. */
  lemma AuthenticatedIffMarker(cookie: string)
    ensures IsAuthenticated(Some(cookie)) <==> exists i :: MatchAt(cookie, SESSION_COOKIE, i)
  {
    var r := IndexOf(cookie, SESSION_COOKIE);
    if r != -1 {
      assert MatchAt(cookie, SESSION_COOKIE, r);
    }
  }
}
