/**
 * Heat pump settings and status as the HeatPump driver reports them, and the
 * pure mappings the firmware derives from them: Home Assistant's climate mode
 * and action, the two-way fan speed mapping, and the numeric encoding of the
 * metrics page.
 */
module Hvac {
  import opened Text

  /** `heatpumpSettings`: the driver's strings are kept verbatim; temperatures are in Celsius. */
  datatype Settings = Settings(power: string, mode: string, temperature: real,
                               fan: string, vane: string, wideVane: string)

  /** `heatpumpStatus`: the part of the status the firmware reads. */
  datatype Status = Status(roomTemperature: real, operating: bool, compressorFrequency: int)

  /** Modes the driver reports. */
  const DeviceModes: set<string> := {"HEAT", "DRY", "COOL", "FAN", "AUTO"}
  /** Home Assistant `hvac_mode` values. */
  const HaModes: set<string> := {"off", "heat", "cool", "dry", "fan_only", "heat_cool"}
  /** Home Assistant `hvac_action` values. */
  const HaActions: set<string> := {"off", "idle", "heating", "cooling", "drying", "fan"}
  /** Fan speeds the driver reports, and their Home Assistant names. */
  const DeviceFanSpeeds: set<string> := {"QUIET", "1", "2", "3", "4", "AUTO"}
  const HaFanModes: set<string> := {"diffuse", "low", "medium", "middle", "high", "auto"}
  /** Horizontal vane positions the driver reports. */
  const DeviceWideVanes: set<string> := {"SWING", "<<", "<", "|", ">", ">>", "<>"}

  /** The unit counts as off when its power string is "off" in any letter case. */
  predicate PoweredOff(s: Settings)
  {
    EqualsIgnoreCase(s.power, "off")
  }

  /** `hpGetMode`: Home Assistant's mode for the unit's settings. */
  function HpGetMode(s: Settings): (r: string)
    ensures PoweredOff(s) ==> r == "off"
    ensures !PoweredOff(s) && ToLower(s.mode) == "fan" ==> r == "fan_only"
    ensures !PoweredOff(s) && ToLower(s.mode) == "auto" ==> r == "heat_cool"
    ensures !PoweredOff(s) && ToLower(s.mode) !in {"fan", "auto"} ==> r == ToLower(s.mode)
  {
    if PoweredOff(s) then "off"
    else
      var mode := ToLower(s.mode);
      if mode == "fan" then "fan_only"
      else if mode == "auto" then "heat_cool"
      else mode
  }

  /** `hpGetAction`: Home Assistant's action for the unit's settings and status. */
  function HpGetAction(st: Status, s: Settings): (r: string)
    ensures PoweredOff(s) ==> r == "off"
    ensures !PoweredOff(s) && ToLower(s.mode) == "fan" ==> r == "fan"
    ensures !PoweredOff(s) && ToLower(s.mode) != "fan" && !st.operating ==> r == "idle"
    ensures !PoweredOff(s) && st.operating && ToLower(s.mode) == "cool" ==> r == "cooling"
    ensures !PoweredOff(s) && st.operating && ToLower(s.mode) == "heat" ==> r == "heating"
    ensures !PoweredOff(s) && st.operating && ToLower(s.mode) == "dry" ==> r == "drying"
    ensures !PoweredOff(s) && st.operating && ToLower(s.mode) == "auto" ==>
              r == (if st.roomTemperature > s.temperature then "cooling"
                    else if st.roomTemperature < s.temperature then "heating"
                    else "auto")
    ensures !PoweredOff(s) && st.operating && ToLower(s.mode) !in {"fan", "auto", "cool", "heat", "dry"} ==>
              r == ToLower(s.mode)
  {
    if PoweredOff(s) then "off"
    else
      var mode := ToLower(s.mode);
      if mode == "fan" then "fan"
      else if !st.operating then "idle"
      else if mode == "auto" then
        if st.roomTemperature > s.temperature then "cooling"
        else if st.roomTemperature < s.temperature then "heating"
        else mode
      else if mode == "cool" then "cooling"
      else if mode == "heat" then "heating"
      else if mode == "dry" then "drying"
      else mode
  }

  /** The driver's modes in lower case, as `hpGetMode` and `hpGetAction` compare them. */
  lemma DeviceModeLower(m: string)
    requires m in DeviceModes
    ensures m == "HEAT" ==> ToLower(m) == "heat"
    ensures m == "DRY" ==> ToLower(m) == "dry"
    ensures m == "COOL" ==> ToLower(m) == "cool"
    ensures m == "FAN" ==> ToLower(m) == "fan"
    ensures m == "AUTO" ==> ToLower(m) == "auto"
  {
  }

  /**
   * For every mode the driver reports, the derived mode is one of Home
   * Assistant's, and so is the action, except for the unresolved case of auto
   * mode with the room exactly at the set point, which yields "auto".
   */
  lemma {:induction false} DerivedStateInRange(st: Status, s: Settings)
    requires s.mode in DeviceModes
    ensures HpGetMode(s) in HaModes
    ensures HpGetAction(st, s) in HaActions <==>
              !(HpGetMode(s) == "heat_cool" && st.operating && st.roomTemperature == s.temperature)
    ensures HpGetAction(st, s) !in HaActions ==> HpGetAction(st, s) == "auto"
  {
    DeviceModeLower(s.mode);
  }

  /**
   * Mode and action never contradict each other: both are "off" together, a
   * running unit heats only in heat or auto mode and cools only in cool or auto
   * mode, a running unit in heat, cool or dry mode heats, cools or dries, a
   * stopped one is idle, and in auto mode the choice follows the room
   * temperature against the set point.
   */
  lemma {:induction false} ActionAgreesWithMode(st: Status, s: Settings)
    requires s.mode in DeviceModes
    ensures HpGetMode(s) == "off" <==> HpGetAction(st, s) == "off"
    ensures HpGetMode(s) == "fan_only" ==> HpGetAction(st, s) == "fan"
    ensures HpGetAction(st, s) == "heating" ==>
              st.operating && HpGetMode(s) in {"heat", "heat_cool"}
    ensures HpGetAction(st, s) == "cooling" ==>
              st.operating && HpGetMode(s) in {"cool", "heat_cool"}
    ensures HpGetAction(st, s) == "drying" ==> st.operating && HpGetMode(s) == "dry"
    ensures st.operating && HpGetMode(s) == "heat" ==> HpGetAction(st, s) == "heating"
    ensures st.operating && HpGetMode(s) == "cool" ==> HpGetAction(st, s) == "cooling"
    ensures st.operating && HpGetMode(s) == "dry" ==> HpGetAction(st, s) == "drying"
    ensures !st.operating && HpGetMode(s) in {"heat", "cool", "dry", "heat_cool"} ==> HpGetAction(st, s) == "idle"
    ensures HpGetMode(s) == "heat_cool" && st.operating ==>
              (HpGetAction(st, s) == "cooling" <==> st.roomTemperature > s.temperature) &&
              (HpGetAction(st, s) == "heating" <==> st.roomTemperature < s.temperature)
  {
    DeviceModeLower(s.mode);
  }

  /** `getFanModeFromHp`: the driver's fan speed in Home Assistant's terms; anything unknown is "auto". */
  function FanModeFromHp(modeFromHp: string): (r: string)
    ensures r in HaFanModes
    ensures modeFromHp !in DeviceFanSpeeds ==> r == "auto"
  {
    if modeFromHp == "QUIET" then "diffuse"
    else if modeFromHp == "1" then "low"
    else if modeFromHp == "2" then "medium"
    else if modeFromHp == "3" then "middle"
    else if modeFromHp == "4" then "high"
    else "auto"
  }

  /** `getFanModeFromHa`: a Home Assistant fan mode in the driver's terms; anything unknown is "AUTO". */
  function FanModeFromHa(modeFromHa: string): (r: string)
    ensures r in DeviceFanSpeeds
    ensures modeFromHa !in HaFanModes ==> r == "AUTO"
  {
    if modeFromHa == "diffuse" then "QUIET"
    else if modeFromHa == "low" then "1"
    else if modeFromHa == "medium" then "2"
    else if modeFromHa == "middle" then "3"
    else if modeFromHa == "high" then "4"
    else "AUTO"
  }

  /** The two fan mappings are inverse bijections between the two sets of names. */
  lemma FanModeRoundTrip(m: string, h: string)
    ensures m in DeviceFanSpeeds ==> FanModeFromHa(FanModeFromHp(m)) == m
    ensures h in HaFanModes ==> FanModeFromHp(FanModeFromHa(h)) == h
  {
  }

  /** The numeric strings the metrics page shows for the unit's settings. */
  datatype Metrics = Metrics(power: string, fan: string, vane: string, wideVane: string, mode: string)

  /** The wide vane position as `handleMetrics` numbers it; anything unknown is -2. */
  function WideVaneMetric(w: string): string
  {
    if w == "SWING" then "0" else if w == "<<" then "1"
    else if w == "<" then "2" else if w == "|" then "3"
    else if w == ">" then "4" else if w == ">>" then "5"
    else if w == "<>" then "6" else "-2"
  }

  /** The mode of a running unit as `handleMetrics` numbers it; anything unknown is -2. */
  function ModeMetric(m: string): string
  {
    if m == "AUTO" then "-1" else if m == "COOL" then "1"
    else if m == "DRY" then "2" else if m == "HEAT" then "3"
    else if m == "FAN" then "4" else "-2"
  }

  /** Metrics encoding of `handleMetrics`: exact, case-sensitive comparisons against the driver's strings. */
  function MetricsOf(s: Settings): (m: Metrics)
    ensures m.power == "1" <==> s.power == "ON"
    ensures m.power == "0" ==> m.mode == "0"
    ensures s.power == "ON" && s.mode !in DeviceModes ==> m.mode == "-2"
    ensures s.wideVane !in DeviceWideVanes ==> m.wideVane == "-2"
  {
    var power := if s.power == "ON" then "1" else "0";
    var fan := if s.fan == "AUTO" then "-1" else if s.fan == "QUIET" then "0" else s.fan;
    var vane := if s.vane == "AUTO" then "-1" else if s.vane == "SWING" then "0" else s.vane;
    var mode := if power == "0" then "0" else ModeMetric(s.mode);
    Metrics(power, fan, vane, WideVaneMetric(s.wideVane), mode)
  }

  /** The metrics tell apart every mode of a running unit. */
  lemma MetricsDistinguishModes(s: Settings, t: Settings)
    requires s.power == "ON" && t.power == "ON"
    requires s.mode in DeviceModes && t.mode in DeviceModes
    requires MetricsOf(s).mode == MetricsOf(t).mode
    ensures s.mode == t.mode
  {
    assert ModeMetric(s.mode) == ModeMetric(t.mode);
    if s.mode == "AUTO" {
    } else if s.mode == "COOL" {
    } else if s.mode == "DRY" {
    } else if s.mode == "HEAT" {
    } else {
      assert s.mode == "FAN";
    }
  }

  /** The metrics tell apart every wide vane position. */
  lemma MetricsDistinguishWideVanes(s: Settings, t: Settings)
    requires s.wideVane in DeviceWideVanes && t.wideVane in DeviceWideVanes
    requires MetricsOf(s).wideVane == MetricsOf(t).wideVane
    ensures s.wideVane == t.wideVane
  {
    var w, v := s.wideVane, t.wideVane;
    assert WideVaneMetric(w) == WideVaneMetric(v);
    if w == "SWING" {
    } else if w == "<<" {
    } else if w == "<" {
    } else if w == "|" {
    } else if w == ">" {
    } else if w == ">>" {
    } else {
      assert w == "<>";
    }
  }
}
