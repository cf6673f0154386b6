/**
 * The firmware's tick-driven state: the heat pump's current and wanted
 * settings, the debounced request to push settings to the unit, the
 * exponential backoff of the unit's link, the remote temperature override and
 * its expiry, the deferred reboot, and the WiFi and MQTT watchdogs. `millis()`
 * is the `now` parameter of every operation and never goes backwards.
 */
module Bridge {
  import opened Wrappers
  import opened Hvac
  import opened Text
  import opened Commands
  import Config

  /**
   * Intervals and limits set in the firmware's build configuration. Their
   * values are not fixed here; every property holds for all of them.
   */
  datatype Timing = Timing(
    hpRetryIntervalMs: nat, hpMaxRetries: nat, checkRemoteTempIntervalMs: nat,
    rebootRequestIntervalMs: nat, wifiRetryIntervalMs: nat, mqttReconnectIntervalMs: nat,
    minTemp: real, maxTemp: real)

  /** A settings push is sent this many milliseconds after the last command that asked for it. */
  const HP_UPDATE_DELAY_MS: nat := 10
  /** Delays of the reboots asked for over MQTT, in seconds. */
  const RESTART_DELAY_S: nat := 3
  const FACTORY_RESET_DELAY_S: nat := 5
  const OPTION_REBOOT_DELAY_S: nat := 5

  /** What the firmware sees of the HeatPump driver: the unit's settings, the wanted ones, and the remote temperature fed to it. */
  datatype HeatPump = HeatPump(current: Settings, wanted: Settings, remoteTemperature: real)

  /** An inbound MQTT message, by the topic it arrived on. Numbers are already parsed from the payload. */
  datatype Command =
    | PowerSet(payload: string)
    | ModeSet(payload: string)
    | TempSet(temperature: real)
    | FanSet(payload: string)
    | VaneSet(payload: string)
    | WideVaneSet(payload: string)
    | RemoteTempSet(temperature: real)
    | DebugPacketsSet(payload: string)
    | DebugLogsSet(payload: string)
    | SystemSet(payload: string)
    | CustomPacket(payload: string)
      /** The system option request, reduced to its `options.webpanel` value when the JSON has one. */
    | SystemOption(webPanel: Option<string>)
    | OtherTopic

  function Pow2(n: nat): (r: nat)
    ensures r >= 1
  {
    if n == 0 then 1 else 2 * Pow2(n - 1)
  }

  /** `(1 << retries) * HP_RETRY_INTERVAL_MS`: the wait before the next attempt to reach the unit. */
  function RetryInterval(retries: nat, base: nat): nat
  {
    Pow2(retries) * base
  }

  /** `min(retries + 1, HP_MAX_RETRIES)`. */
  function NextRetries(retries: nat, maxRetries: nat): (r: nat)
    ensures r == retries + 1 || r == maxRetries
    ensures r <= retries + 1 && r <= maxRetries
  {
    if retries + 1 < maxRetries then retries + 1 else maxRetries
  }

  lemma {:induction false} Pow2Monotone(m: nat, n: nat)
    requires m <= n
    ensures Pow2(m) <= Pow2(n)
    decreases n
  {
    if m < n {
      Pow2Monotone(m, n - 1);
    }
  }

  /**
   * Backoff: starting from a counter within the cap, each failed attempt
   * keeps the counter within the cap and never shortens the wait, and the wait
   * never exceeds the one at the cap.
   */
  lemma BackoffBounded(retries: nat, maxRetries: nat, base: nat)
    requires retries <= maxRetries
    ensures NextRetries(retries, maxRetries) <= maxRetries
    ensures RetryInterval(retries, base) <= RetryInterval(NextRetries(retries, maxRetries), base)
    ensures RetryInterval(NextRetries(retries, maxRetries), base) <= RetryInterval(maxRetries, base)
  {
    var next := NextRetries(retries, maxRetries);
    Pow2Monotone(retries, next);
    Pow2Monotone(next, maxRetries);
    assert Pow2(retries) * base <= Pow2(next) * base;
    assert Pow2(next) * base <= Pow2(maxRetries) * base;
  }

  /** The set point the power-on branch of `mqttCallback` sends, as written: the unit's Celsius set point is converted as if it were in the display unit. */
  function PowerOnTemperatureAsWritten(current: real, useFahrenheit: bool, minTemp: real, maxTemp: real): real
  {
    ClampTemperature(LocalToCelsius(current, useFahrenheit), minTemp, maxTemp)
  }

  /** The set point power-on evidently means to send: the unit's own Celsius set point, range-checked. */
  function PowerOnTemperature(current: real, minTemp: real, maxTemp: real): (t: real)
    ensures minTemp <= current <= maxTemp ==> t == current
    ensures minTemp <= FALLBACK_TEMPERATURE <= maxTemp ==> minTemp <= t <= maxTemp
  {
    ClampTemperature(current, minTemp, maxTemp)
  }

  /**
   * With Fahrenheit display, powering on over MQTT replaces any in-range set
   * point other than 23 by 23 degrees Celsius whenever the set point, misread as
   * Fahrenheit, falls below the range; the corrected rule keeps it.
   */
  lemma PowerOnResetsSetPoint(current: real, minTemp: real, maxTemp: real)
    requires minTemp <= current <= maxTemp && current != FALLBACK_TEMPERATURE
    requires ToCelsius(current) < minTemp
    ensures PowerOnTemperatureAsWritten(current, true, minTemp, maxTemp) == FALLBACK_TEMPERATURE
    ensures PowerOnTemperatureAsWritten(current, true, minTemp, maxTemp) != current
    ensures PowerOnTemperature(current, minTemp, maxTemp) == current
  {
  }

  /** A concrete case: a 22 degree set point on a 16 to 31 degree unit comes back as 23. */
  lemma PowerOnResetsSetPointExample()
    ensures PowerOnTemperatureAsWritten(22.0, true, 16.0, 31.0) == 23.0
    ensures PowerOnTemperature(22.0, 16.0, 31.0) == 22.0
  {
    PowerOnResetsSetPoint(22.0, 16.0, 31.0);
  }

  /** The debug topics: "on" and "off" set the flag, any other payload keeps it. */
  function DebugFlag(payload: string, current: bool): (flag: bool)
    ensures payload == "on" ==> flag
    ensures payload == "off" ==> !flag
    ensures payload != "on" && payload != "off" ==> flag == current
  {
    if payload == "on" then true else if payload == "off" then false else current
  }

  /**
   * Whether a message edits the wanted settings (`update` in `mqttCallback`):
   * every power and mode payload the decoders accept, every set point, fan,
   * vane and wide vane value, and every remote temperature. Payloads are read
   * as the C string `message`, up to the first NUL.
   */
  predicate Edits(cmd: Command)
  {
    match cmd
    case PowerSet(p) => DecodePowerSet(CString(p)) != PowerIgnored
    case ModeSet(p) => !DecodeModeSet(CString(p)).Ignored?
    case TempSet(_) => true
    case FanSet(_) => true
    case VaneSet(_) => true
    case WideVaneSet(_) => true
    case RemoteTempSet(_) => true
    case _ => false
  }

  /**
   * What one message does to the driver's state: the new wanted settings, or
   * the new remote temperature. The unit's own settings never change here.
   */
  function PumpAfter(cmd: Command, hp: HeatPump, useFahrenheit: bool, timing: Timing): (r: HeatPump)
    ensures r.current == hp.current
    ensures !Edits(cmd) ==> r == hp
    ensures cmd.RemoteTempSet? ==> r.wanted == hp.wanted
    ensures !cmd.RemoteTempSet? ==> r.remoteTemperature == hp.remoteTemperature
    ensures cmd.PowerSet? || cmd.ModeSet? ==> r.wanted.fan == hp.wanted.fan && r.wanted.vane == hp.wanted.vane
  {
    match cmd
    case PowerSet(p) =>
      (match DecodePowerSet(CString(p))
       case PowerOff => hp.(wanted := hp.wanted.(power := "OFF"))
       case PowerOn =>
         hp.(wanted := hp.wanted.(power := "ON", mode := hp.current.mode,
                                  temperature := PowerOnTemperature(hp.current.temperature, timing.minTemp, timing.maxTemp)))
       case PowerIgnored => hp)
    case ModeSet(p) =>
      (match DecodeModeSet(CString(p))
       case TurnOff => hp.(wanted := hp.wanted.(power := "OFF"))
       case SelectMode(m, _, _) => hp.(wanted := hp.wanted.(power := "ON", mode := m))
       case Ignored => hp)
    case TempSet(t) =>
      hp.(wanted := hp.wanted.(power := hp.current.power, mode := hp.current.mode,
                               temperature := ClampTemperature(LocalToCelsius(t, useFahrenheit), timing.minTemp, timing.maxTemp)))
    case FanSet(p) => hp.(wanted := hp.wanted.(fan := FanModeFromHa(CString(p))))
    case VaneSet(p) => hp.(wanted := hp.wanted.(vane := CString(p)))
    case WideVaneSet(p) => hp.(wanted := hp.wanted.(wideVane := CString(p)))
    case RemoteTempSet(t) => hp.(remoteTemperature := if t == 0.0 then 0.0 else LocalToCelsius(t, useFahrenheit))
    case _ => hp
  }

  /**
   * A message delivered twice (a retained message, or a repeat from Home
   * Assistant) leaves the driver's state as the first delivery did: every
   * edit depends only on the payload and the unit's own settings.
   */
  lemma PumpAfterIdempotent(cmd: Command, hp: HeatPump, useFahrenheit: bool, timing: Timing)
    ensures var once := PumpAfter(cmd, hp, useFahrenheit, timing);
            PumpAfter(cmd, once, useFahrenheit, timing) == once
  {
  }

  /** The web panel value a system option request asks for (`true` for disabled), if it is a valid one. */
  function PanelRequest(webPanel: Option<string>): (disable: Option<bool>)
    ensures disable.Some? <==> webPanel.Some? && webPanel.value in {"On", "Off"}
    ensures disable.Some? ==> (disable.value <==> webPanel.value == "Off")
  {
    if webPanel.Some? && (webPanel.value == "On" || webPanel.value == "Off") then Some(webPanel.value == "Off")
    else None
  }

  /** The delay of a reboot asked for on the system topic: "restart" and "factory" ask for one, other payloads do not. */
  function RebootDelay(payload: string): (seconds: Option<nat>)
    ensures seconds.Some? <==> payload in {"restart", "factory"}
  {
    if payload == "restart" then Some(RESTART_DELAY_S)
    else if payload == "factory" then Some(FACTORY_RESET_DELAY_S)
    else None
  }

  /**
   * The firmware's own state that MQTT messages change besides the driver:
   * the remote temperature override and its time stamp, the debug switches,
   * the custom packets sent, the reboot request, and the web panel switch.
   */
  datatype BoardState = BoardState(
    remoteTempActive: bool, lastRemoteTemp: nat, debugPackets: bool, debugLogs: bool,
    customPackets: seq<seq<int>>, requestReboot: bool, requestRebootTime: nat, factoryResetDone: bool,
    webPanelDisable: bool)

  /** The remote temperature topic: 0 turns the override off, any other value turns it on at `now`. */
  function RemoteTempAfter(temperature: real, b: BoardState, now: nat): (r: BoardState)
    ensures r.remoteTempActive <==> temperature != 0.0
  {
    if temperature == 0.0 then b.(remoteTempActive := false) else b.(remoteTempActive := true, lastRemoteTemp := now)
  }

  /** The debug topics and the custom packet topic. */
  function DeviceAfter(cmd: Command, b: BoardState): (r: BoardState)
    requires cmd.DebugPacketsSet? || cmd.DebugLogsSet? || cmd.CustomPacket?
    ensures r.requestReboot == b.requestReboot && r.requestRebootTime == b.requestRebootTime
    ensures r.remoteTempActive == b.remoteTempActive && r.lastRemoteTemp == b.lastRemoteTemp
  {
    match cmd
    case DebugPacketsSet(p) => b.(debugPackets := DebugFlag(CString(p), b.debugPackets))
    case DebugLogsSet(p) => b.(debugLogs := DebugFlag(CString(p), b.debugLogs))
    case CustomPacket(p) => b.(customPackets := b.customPackets + [CustomPacketBytes(p)])
  }

  /**
   * The system topic and the system option request: a reboot is scheduled
   * only when none is pending for "restart"/"factory", and whenever a valid
   * web panel value changes the switch.
   */
  function SystemAfter(cmd: Command, b: BoardState, now: nat): (r: BoardState)
    requires cmd.SystemSet? || cmd.SystemOption?
    ensures cmd.SystemSet? && b.requestReboot ==> r == b
    ensures b.factoryResetDone ==> r.factoryResetDone
    ensures r.customPackets == b.customPackets && r.debugPackets == b.debugPackets && r.debugLogs == b.debugLogs
    ensures r.requestReboot != b.requestReboot ==> r.requestReboot
  {
    match cmd
    case SystemSet(p) =>
      var delay := RebootDelay(CString(p));
      if b.requestReboot || delay.None? then b
      else b.(requestReboot := true, requestRebootTime := now + delay.value * 1000,
              factoryResetDone := b.factoryResetDone || CString(p) == "factory")
    case SystemOption(w) =>
      if PanelRequest(w) == Some(!b.webPanelDisable) then
        b.(webPanelDisable := !b.webPanelDisable, requestReboot := true,
           requestRebootTime := now + OPTION_REBOOT_DELAY_S * 1000)
      else b
  }

  /** The debug, custom packet and system topics leave the driver alone and change only the board's state. */
  lemma BoardTopic(cmd: Command, hp: HeatPump, b: BoardState, now: nat, useFahrenheit: bool, timing: Timing)
    requires cmd.DebugPacketsSet? || cmd.DebugLogsSet? || cmd.CustomPacket? || cmd.SystemSet? || cmd.SystemOption?
    ensures !Edits(cmd) && PumpAfter(cmd, hp, useFahrenheit, timing) == hp
    ensures cmd.DebugPacketsSet? || cmd.DebugLogsSet? || cmd.CustomPacket? ==> BoardAfter(cmd, b, now) == DeviceAfter(cmd, b)
    ensures cmd.SystemSet? || cmd.SystemOption? ==> BoardAfter(cmd, b, now) == SystemAfter(cmd, b, now)
  {
  }

  /** The topics that edit the wanted settings. */
  predicate IsSettingTopic(cmd: Command)
  {
    cmd.PowerSet? || cmd.ModeSet? || cmd.TempSet? || cmd.FanSet? || cmd.VaneSet? || cmd.WideVaneSet?
  }

  /** What one message received at `now` does to that state. */
  function BoardAfter(cmd: Command, b: BoardState, now: nat): (r: BoardState)
    ensures !(cmd.SystemSet? || cmd.SystemOption?) ==>
              r.requestReboot == b.requestReboot && r.requestRebootTime == b.requestRebootTime &&
              r.webPanelDisable == b.webPanelDisable && r.factoryResetDone == b.factoryResetDone
    ensures !cmd.RemoteTempSet? ==> r.remoteTempActive == b.remoteTempActive && r.lastRemoteTemp == b.lastRemoteTemp
  {
    match cmd
    case RemoteTempSet(t) => RemoteTempAfter(t, b, now)
    case DebugPacketsSet(_) => DeviceAfter(cmd, b)
    case DebugLogsSet(_) => DeviceAfter(cmd, b)
    case CustomPacket(_) => DeviceAfter(cmd, b)
    case SystemSet(_) => SystemAfter(cmd, b, now)
    case SystemOption(_) => SystemAfter(cmd, b, now)
    case _ => b
  }

  class Firmware {
    const timing: Timing
    /** `useFahrenheit`, `wifi_config` and `captive`, fixed at boot. */
    const useFahrenheit: bool
    const wifiConfig: bool
    const captive: bool

    var hp: HeatPump
    /** Every `hp.update()`, with the wanted settings it sent. */
    var updates: seq<Settings>
    /** Number of `hp.sync()` calls. */
    var syncs: nat
    /** Every custom packet handed to the driver. */
    var customPackets: seq<seq<int>>

    var requestHpUpdate: bool
    var requestHpUpdateTime: nat
    var requestReboot: bool
    var requestRebootTime: nat
    var factoryResetDone: bool
    var remoteTempActive: bool
    var lastRemoteTemp: nat
    var hpConnectionRetries: nat
    var hpConnectionTotalRetries: nat
    var lastHpSync: nat
    var wifiTimeout: nat
    var mqttReconnectTimeout: nat
    var debugModePckts: bool
    var debugModeLogs: bool
    var webPanelDisable: bool

    /** The latest `millis()` value seen. */
    ghost var clock: nat

    ghost predicate Valid()
      reads this`hpConnectionRetries, this`lastRemoteTemp, this`clock, this`lastHpSync
      reads this`requestHpUpdate, this`requestHpUpdateTime, this`requestReboot, this`requestRebootTime
    {
      && hpConnectionRetries <= timing.hpMaxRetries
      && lastRemoteTemp <= clock
      && lastHpSync <= clock
      // a push is pending exactly when its deadline is set, and the deadline is at most one delay away
      && (requestHpUpdate <==> requestHpUpdateTime != 0)
      && requestHpUpdateTime <= clock + HP_UPDATE_DELAY_MS
      && (!requestReboot ==> requestRebootTime == 0)
    }

    /** The part of the state `BoardAfter` describes. */
    function Board(): BoardState
      reads this`remoteTempActive, this`lastRemoteTemp, this`debugModePckts, this`debugModeLogs, this`customPackets
      reads this`requestReboot, this`requestRebootTime, this`factoryResetDone, this`webPanelDisable
    {
      BoardState(remoteTempActive, lastRemoteTemp, debugModePckts, debugModeLogs, customPackets,
            requestReboot, requestRebootTime, factoryResetDone, webPanelDisable)
    }

    /** The state after `setup`: nothing pending, no retries yet, wanted settings equal to the unit's, the switches as loaded. */
    constructor (timing: Timing, useFahrenheit: bool, wifiConfig: bool, captive: bool, initial: Settings,
                 others: Config.Others)
      ensures Valid() && clock == 0
      ensures this.timing == timing && this.useFahrenheit == useFahrenheit
      ensures this.wifiConfig == wifiConfig && this.captive == captive
      ensures hp == HeatPump(initial, initial, 0.0) && updates == [] && syncs == 0 && customPackets == []
      ensures !requestHpUpdate && !requestReboot && !remoteTempActive && !factoryResetDone
      ensures hpConnectionRetries == 0 && hpConnectionTotalRetries == 0 && lastHpSync == 0
      ensures debugModePckts == others.debugPackets && debugModeLogs == others.debugLogs
      ensures webPanelDisable == others.webPanelDisable
    {
      this.timing := timing;
      this.useFahrenheit := useFahrenheit;
      this.wifiConfig := wifiConfig;
      this.captive := captive;
      hp := HeatPump(initial, initial, 0.0);
      updates, syncs, customPackets := [], 0, [];
      requestHpUpdate, requestHpUpdateTime := false, 0;
      requestReboot, requestRebootTime, factoryResetDone := false, 0, false;
      remoteTempActive, lastRemoteTemp := false, 0;
      hpConnectionRetries, hpConnectionTotalRetries, lastHpSync := 0, 0, 0;
      wifiTimeout, mqttReconnectTimeout := 0, 0;
      debugModePckts, debugModeLogs, webPanelDisable := others.debugPackets, others.debugLogs, others.webPanelDisable;
      clock := 0;
    }

    /**
     * The tail of `change_states` and `mqttCallback` once settings were
     * edited: a push is scheduled only when the wanted settings differ from
     * the unit's, and scheduling again before the deadline only moves it.
     */
    method ScheduleHpUpdate(now: nat)
      requires Valid() && now == clock
      modifies this`requestHpUpdate, this`requestHpUpdateTime
      ensures Valid()
      ensures hp.current != hp.wanted ==> requestHpUpdate && requestHpUpdateTime == now + HP_UPDATE_DELAY_MS
      ensures hp.current == hp.wanted ==>
                requestHpUpdate == old(requestHpUpdate) && requestHpUpdateTime == old(requestHpUpdateTime)
    {
      if hp.current != hp.wanted {
        requestHpUpdate := true;
        requestHpUpdateTime := now + HP_UPDATE_DELAY_MS;
      }
    }

    /** `change_states`: apply a control form to `settings`; the edited settings become the wanted ones. */
    method ChangeStates(req: ControlRequest, settings: Settings, now: nat) returns (r: Settings)
      requires Valid() && now >= clock
      modifies this`hp, this`requestHpUpdate, this`requestHpUpdateTime, this`clock
      ensures Valid() && clock == now
      ensures r == ApplyControl(req, settings, useFahrenheit).0
      ensures ApplyControl(req, settings, useFahrenheit).1 ==> hp == old(hp).(wanted := r)
      ensures !ApplyControl(req, settings, useFahrenheit).1 ==> hp == old(hp) && r == settings
      ensures hp.current != hp.wanted && ApplyControl(req, settings, useFahrenheit).1 ==>
                requestHpUpdate && requestHpUpdateTime == now + HP_UPDATE_DELAY_MS
      ensures hp.current == hp.wanted || !ApplyControl(req, settings, useFahrenheit).1 ==>
                requestHpUpdate == old(requestHpUpdate) && requestHpUpdateTime == old(requestHpUpdateTime)
    {
      clock := now;
      var update: bool;
      r, update := ApplyControl(req, settings, useFahrenheit).0, ApplyControl(req, settings, useFahrenheit).1;
      if update {
        hp := hp.(wanted := r);
        ScheduleHpUpdate(now);
      }
    }

    /** `checkHpUpdateRequest`: once the deadline has passed, push the wanted settings once and clear the request. */
    method CheckHpUpdateRequest(now: nat)
      requires Valid() && now >= clock
      modifies this`requestHpUpdate, this`requestHpUpdateTime, this`updates, this`clock
      ensures Valid() && clock == now
      ensures old(requestHpUpdate) && now > old(requestHpUpdateTime) ==>
                !requestHpUpdate && updates == old(updates) + [hp.wanted]
      ensures !(old(requestHpUpdate) && now > old(requestHpUpdateTime)) ==>
                requestHpUpdate == old(requestHpUpdate) && requestHpUpdateTime == old(requestHpUpdateTime) &&
                updates == old(updates)
    {
      clock := now;
      if requestHpUpdate && now > requestHpUpdateTime {
        requestHpUpdate := false;
        requestHpUpdateTime := 0;
        updates := updates + [hp.wanted];
      }
    }

    /** `hpCheckRemoteTemp`: a remote temperature not refreshed for longer than the interval is dropped, and the unit told to use its own sensor. */
    method HpCheckRemoteTemp(now: nat)
      requires Valid() && now >= clock
      modifies this`remoteTempActive, this`hp, this`updates, this`clock
      ensures Valid() && clock == now
      ensures old(remoteTempActive) && now - lastRemoteTemp > timing.checkRemoteTempIntervalMs ==>
                !remoteTempActive && hp == old(hp).(remoteTemperature := 0.0) && updates == old(updates) + [hp.wanted]
      ensures !(old(remoteTempActive) && now - lastRemoteTemp > timing.checkRemoteTempIntervalMs) ==>
                remoteTempActive == old(remoteTempActive) && hp == old(hp) && updates == old(updates)
    {
      clock := now;
      if remoteTempActive && now - lastRemoteTemp > timing.checkRemoteTempIntervalMs {
        remoteTempActive := false;
        hp := hp.(remoteTemperature := 0.0);
        updates := updates + [hp.wanted];
      }
    }

    /** `sendRebootRequest`: reboot `seconds` from now; a later request replaces the deadline. */
    method SendRebootRequest(seconds: nat, now: nat)
      requires Valid() && now == clock
      modifies this`requestReboot, this`requestRebootTime
      ensures Valid()
      ensures requestReboot && requestRebootTime == now + seconds * 1000
    {
      requestReboot := true;
      requestRebootTime := now + seconds * 1000;
    }

    /** `checkRebootRequest`: restart once the deadline plus the grace interval has passed. */
    method CheckRebootRequest(now: nat) returns (restart: bool)
      requires Valid() && now >= clock
      modifies this`requestReboot, this`requestRebootTime, this`clock
      ensures Valid() && clock == now
      ensures restart <==> old(requestReboot) && now > old(requestRebootTime) + timing.rebootRequestIntervalMs
      ensures restart ==> !requestReboot && requestRebootTime == 0
      ensures !restart ==> requestReboot == old(requestReboot) && requestRebootTime == old(requestRebootTime)
    {
      clock := now;
      restart := requestReboot && now > requestRebootTime + timing.rebootRequestIntervalMs;
      if restart {
        requestReboot := false;
        requestRebootTime := 0;
      }
    }

    /**
     * The unit-link section of `loop`: while connected, sync and reset the
     * backoff; while disconnected, attempt a sync only when none was ever made or
     * the backoff interval has passed, counting the attempt.
     */
    method SyncHp(now: nat, hpConnected: bool)
      requires Valid() && now >= clock
      modifies this`hpConnectionRetries, this`hpConnectionTotalRetries, this`lastHpSync, this`syncs, this`clock
      ensures Valid() && clock == now
      ensures hpConnected ==>
                hpConnectionRetries == 0 && syncs == old(syncs) + 1 &&
                lastHpSync == old(lastHpSync) && hpConnectionTotalRetries == old(hpConnectionTotalRetries)
      ensures var due := old(lastHpSync) == 0 ||
                         now - old(lastHpSync) > RetryInterval(old(hpConnectionRetries), timing.hpRetryIntervalMs);
              !hpConnected && due ==>
                lastHpSync == now && syncs == old(syncs) + 1 &&
                hpConnectionRetries == NextRetries(old(hpConnectionRetries), timing.hpMaxRetries) &&
                hpConnectionTotalRetries == old(hpConnectionTotalRetries) + 1
      ensures var due := old(lastHpSync) == 0 ||
                         now - old(lastHpSync) > RetryInterval(old(hpConnectionRetries), timing.hpRetryIntervalMs);
              !hpConnected && !due ==>
                lastHpSync == old(lastHpSync) && syncs == old(syncs) &&
                hpConnectionRetries == old(hpConnectionRetries) &&
                hpConnectionTotalRetries == old(hpConnectionTotalRetries)
    {
      clock := now;
      if !hpConnected {
        var durationNextSync := RetryInterval(hpConnectionRetries, timing.hpRetryIntervalMs);
        if now - lastHpSync > durationNextSync || lastHpSync == 0 {
          lastHpSync := now;
          hpConnectionRetries := NextRetries(hpConnectionRetries, timing.hpMaxRetries);
          hpConnectionTotalRetries := hpConnectionTotalRetries + 1;
          syncs := syncs + 1;
        }
      } else {
        hpConnectionRetries := 0;
        syncs := syncs + 1;
      }
    }

    /** The WiFi watchdog of `loop`: a configured device that stays off the network past the deadline restarts. */
    method CheckWifi(now: nat, wifiConnected: bool) returns (restart: bool)
      requires Valid() && now >= clock
      modifies this`wifiTimeout, this`clock
      ensures Valid() && clock == now
      ensures wifiConnected ==> !restart && wifiTimeout == now + timing.wifiRetryIntervalMs
      ensures !wifiConnected ==> wifiTimeout == old(wifiTimeout) && (restart <==> wifiConfig && now > wifiTimeout)
    {
      clock := now;
      restart := false;
      if wifiConnected {
        wifiTimeout := now + timing.wifiRetryIntervalMs;
      } else if wifiConfig && now > wifiTimeout {
        restart := true;
      }
    }

    /** The MQTT watchdog of `loop`: with WiFi up and the broker down, at most one attempt per reconnect interval. */
    method CheckMqttReconnect(now: nat, wifiConnected: bool, mqttConnected: bool) returns (attempt: bool)
      requires Valid() && now >= clock
      modifies this`mqttReconnectTimeout, this`clock
      ensures Valid() && clock == now
      ensures attempt <==> wifiConnected && !mqttConnected && now > old(mqttReconnectTimeout)
      ensures attempt ==> mqttReconnectTimeout == now + timing.mqttReconnectIntervalMs
      ensures !attempt ==> mqttReconnectTimeout == old(mqttReconnectTimeout)
    {
      clock := now;
      attempt := wifiConnected && !mqttConnected && now > mqttReconnectTimeout;
      if attempt {
        mqttReconnectTimeout := now + timing.mqttReconnectIntervalMs;
      }
    }

    /** A pending reboot is due once its deadline plus the grace interval has passed. */
    function RebootDue(pending: bool, deadline: nat, now: nat): bool
    {
      pending && now > deadline + timing.rebootRequestIntervalMs
    }

    /** A disconnected unit is due for a sync attempt when none was made yet or the backoff interval has passed. */
    function SyncDue(last: nat, retries: nat, now: nat): bool
    {
      last == 0 || now - last > RetryInterval(retries, timing.hpRetryIntervalMs)
    }

    /** The first half of `loop`: the reboot request, then the WiFi watchdog; either may restart. */
    method Watchdogs(now: nat, wifiConnected: bool) returns (restart: bool)
      requires Valid() && now >= clock
      modifies this`requestReboot, this`requestRebootTime, this`wifiTimeout, this`clock
      ensures Valid() && clock == now
      ensures restart <==> RebootDue(old(requestReboot), old(requestRebootTime), now) ||
                           (!wifiConnected && wifiConfig && now > old(wifiTimeout))
      ensures RebootDue(old(requestReboot), old(requestRebootTime), now) ==> !requestReboot && requestRebootTime == 0
      ensures !RebootDue(old(requestReboot), old(requestRebootTime), now) ==>
                requestReboot == old(requestReboot) && requestRebootTime == old(requestRebootTime)
      ensures wifiTimeout ==
                if !RebootDue(old(requestReboot), old(requestRebootTime), now) && wifiConnected
                then now + timing.wifiRetryIntervalMs else old(wifiTimeout)
    {
      restart := CheckRebootRequest(now);
      if !restart {
        restart := CheckWifi(now, wifiConnected);
      }
    }

    /** The second half of `loop` outside the captive portal: a due push, the unit's sync, and the MQTT watchdog. */
    method ServiceUnit(now: nat, wifiConnected: bool, hpConnected: bool, mqttConnected: bool) returns (mqttAttempt: bool)
      requires Valid() && now >= clock
      modifies this`requestHpUpdate, this`requestHpUpdateTime, this`updates, this`hpConnectionRetries
      modifies this`hpConnectionTotalRetries, this`lastHpSync, this`syncs, this`mqttReconnectTimeout, this`clock
      ensures Valid() && clock == now
      ensures old(requestHpUpdate) && now > old(requestHpUpdateTime) ==>
                !requestHpUpdate && requestHpUpdateTime == 0 && updates == old(updates) + [hp.wanted]
      ensures !(old(requestHpUpdate) && now > old(requestHpUpdateTime)) ==>
                requestHpUpdate == old(requestHpUpdate) && requestHpUpdateTime == old(requestHpUpdateTime) &&
                updates == old(updates)
      ensures hpConnected ==>
                hpConnectionRetries == 0 && syncs == old(syncs) + 1 &&
                lastHpSync == old(lastHpSync) && hpConnectionTotalRetries == old(hpConnectionTotalRetries)
      ensures !hpConnected && SyncDue(old(lastHpSync), old(hpConnectionRetries), now) ==>
                lastHpSync == now && syncs == old(syncs) + 1 &&
                hpConnectionRetries == NextRetries(old(hpConnectionRetries), timing.hpMaxRetries) &&
                hpConnectionTotalRetries == old(hpConnectionTotalRetries) + 1
      ensures !hpConnected && !SyncDue(old(lastHpSync), old(hpConnectionRetries), now) ==>
                lastHpSync == old(lastHpSync) && syncs == old(syncs) &&
                hpConnectionRetries == old(hpConnectionRetries) &&
                hpConnectionTotalRetries == old(hpConnectionTotalRetries)
      ensures mqttAttempt <==> wifiConnected && !mqttConnected && now > old(mqttReconnectTimeout)
      ensures mqttReconnectTimeout == if mqttAttempt then now + timing.mqttReconnectIntervalMs else old(mqttReconnectTimeout)
    {
      CheckHpUpdateRequest(now);
      SyncHp(now, hpConnected);
      mqttAttempt := CheckMqttReconnect(now, wifiConnected, mqttConnected);
    }

    /**
     * One pass of `loop`: a due reboot restarts before anything else; the
     * WiFi watchdog comes next; past both, a device that is not serving the
     * captive portal pushes a due settings request, syncs the unit under the
     * backoff rule and may attempt an MQTT reconnect.
     */
    method Loop(now: nat, wifiConnected: bool, hpConnected: bool, mqttConnected: bool)
      returns (restart: bool, mqttAttempt: bool)
      requires Valid() && now >= clock
      modifies this`requestReboot, this`requestRebootTime, this`wifiTimeout, this`requestHpUpdate
      modifies this`requestHpUpdateTime, this`updates, this`hpConnectionRetries, this`hpConnectionTotalRetries
      modifies this`lastHpSync, this`syncs, this`mqttReconnectTimeout, this`clock
      ensures Valid() && clock == now
      // reboot request and WiFi watchdog
      ensures restart <==> RebootDue(old(requestReboot), old(requestRebootTime), now) ||
                           (!wifiConnected && wifiConfig && now > old(wifiTimeout))
      ensures RebootDue(old(requestReboot), old(requestRebootTime), now) ==> !requestReboot && requestRebootTime == 0
      ensures !RebootDue(old(requestReboot), old(requestRebootTime), now) ==>
                requestReboot == old(requestReboot) && requestRebootTime == old(requestRebootTime)
      ensures wifiTimeout ==
                if !RebootDue(old(requestReboot), old(requestRebootTime), now) && wifiConnected
                then now + timing.wifiRetryIntervalMs else old(wifiTimeout)
      // settings push
      ensures !restart && !captive && old(requestHpUpdate) && now > old(requestHpUpdateTime) ==>
                !requestHpUpdate && requestHpUpdateTime == 0 && updates == old(updates) + [hp.wanted]
      ensures !(!restart && !captive && old(requestHpUpdate) && now > old(requestHpUpdateTime)) ==>
                requestHpUpdate == old(requestHpUpdate) && requestHpUpdateTime == old(requestHpUpdateTime) &&
                updates == old(updates)
      // unit link
      ensures !restart && !captive && hpConnected ==>
                hpConnectionRetries == 0 && syncs == old(syncs) + 1 &&
                lastHpSync == old(lastHpSync) && hpConnectionTotalRetries == old(hpConnectionTotalRetries)
      ensures !restart && !captive && !hpConnected && SyncDue(old(lastHpSync), old(hpConnectionRetries), now) ==>
                lastHpSync == now && syncs == old(syncs) + 1 &&
                hpConnectionRetries == NextRetries(old(hpConnectionRetries), timing.hpMaxRetries) &&
                hpConnectionTotalRetries == old(hpConnectionTotalRetries) + 1
      ensures !(!restart && !captive && (hpConnected || SyncDue(old(lastHpSync), old(hpConnectionRetries), now))) ==>
                lastHpSync == old(lastHpSync) && syncs == old(syncs) &&
                hpConnectionRetries == old(hpConnectionRetries) &&
                hpConnectionTotalRetries == old(hpConnectionTotalRetries)
      // MQTT watchdog
      ensures mqttAttempt <==> !restart && !captive && wifiConnected && !mqttConnected && now > old(mqttReconnectTimeout)
      ensures mqttReconnectTimeout == if mqttAttempt then now + timing.mqttReconnectIntervalMs else old(mqttReconnectTimeout)
    {
      mqttAttempt := false;
      restart := Watchdogs(now, wifiConnected);
      if !restart && !captive {
        mqttAttempt := ServiceUnit(now, wifiConnected, hpConnected, mqttConnected);
      }
    }

    /** The power topic: "off" switches off; "on" switches on keeping the unit's mode and a range-checked set point. */
    method OnPowerSet(payload: string) returns (update: bool)
      requires Valid()
      modifies this`hp
      ensures Valid()
      ensures DecodePowerSet(payload) == PowerOff ==> update && hp == old(hp).(wanted := old(hp).wanted.(power := "OFF"))
      ensures DecodePowerSet(payload) == PowerOn ==>
                update &&
                hp == old(hp).(wanted := old(hp).wanted.(
                        power := "ON", mode := hp.current.mode,
                        temperature := PowerOnTemperature(hp.current.temperature, timing.minTemp, timing.maxTemp)))
      ensures DecodePowerSet(payload) == PowerIgnored ==> !update && hp == old(hp)
    {
      match DecodePowerSet(payload)
      case PowerOff =>
        hp := hp.(wanted := hp.wanted.(power := "OFF"));
        update := true;
      case PowerOn =>
        var t := PowerOnTemperature(hp.current.temperature, timing.minTemp, timing.maxTemp);
        hp := hp.(wanted := hp.wanted.(mode := hp.current.mode, temperature := t, power := "ON"));
        update := true;
      case PowerIgnored =>
        update := false;
    }

    /** The mode topic: "off" switches off, a known mode switches on in that mode, anything else is ignored. Returns the optimistic (mode, action) published. */
    method OnModeSet(payload: string) returns (update: bool, published: Option<(string, string)>)
      requires Valid()
      modifies this`hp
      ensures Valid()
      ensures DecodeModeSet(payload).TurnOff? ==>
                update && published == Some(("off", "off")) && hp == old(hp).(wanted := old(hp).wanted.(power := "OFF"))
      ensures DecodeModeSet(payload).SelectMode? ==>
                var c := DecodeModeSet(payload);
                update && published == Some((c.haMode, c.haAction)) &&
                hp == old(hp).(wanted := old(hp).wanted.(power := "ON", mode := c.deviceMode)) &&
                HpGetMode(hp.wanted) == c.haMode
      ensures DecodeModeSet(payload).Ignored? ==> !update && published == None && hp == old(hp)
    {
      var c := DecodeModeSet(payload);
      match c
      case TurnOff =>
        hp := hp.(wanted := hp.wanted.(power := "OFF"));
        update, published := true, Some(("off", "off"));
      case SelectMode(deviceMode, haMode, haAction) =>
        hp := hp.(wanted := hp.wanted.(power := "ON", mode := deviceMode));
        ModeSetAnnouncesDerivedMode(payload, old(hp).wanted);
        update, published := true, Some((haMode, haAction));
      case Ignored =>
        update, published := false, None;
    }

    /** The temperature topic: keep the unit's power and mode, set a range-checked Celsius set point. */
    method OnTempSet(temperature: real) returns (update: bool)
      requires Valid()
      modifies this`hp
      ensures Valid() && update
      ensures hp == old(hp).(wanted := old(hp).wanted.(
                power := hp.current.power, mode := hp.current.mode,
                temperature := ClampTemperature(LocalToCelsius(temperature, useFahrenheit), timing.minTemp, timing.maxTemp)))
    {
      var c := ClampTemperature(LocalToCelsius(temperature, useFahrenheit), timing.minTemp, timing.maxTemp);
      hp := hp.(wanted := hp.wanted.(power := hp.current.power, mode := hp.current.mode, temperature := c));
      update := true;
    }

    /** The remote temperature topic: 0 turns the override off, any other value turns it on and restarts its clock. */
    method OnRemoteTempSet(temperature: real, now: nat)
      requires Valid() && now == clock
      modifies this`remoteTempActive, this`lastRemoteTemp, this`hp
      ensures Valid()
      ensures hp == PumpAfter(RemoteTempSet(temperature), old(hp), useFahrenheit, timing)
      ensures Board() == RemoteTempAfter(temperature, old(Board()), now)
    {
      if temperature == 0.0 {
        remoteTempActive := false;
        hp := hp.(remoteTemperature := 0.0);
      } else {
        remoteTempActive := true;
        lastRemoteTemp := now;
        hp := hp.(remoteTemperature := LocalToCelsius(temperature, useFahrenheit));
      }
    }

    /** The system topic: "restart" and "factory" schedule a reboot unless one is already pending. */
    method OnSystemSet(payload: string, now: nat)
      requires Valid() && now == clock
      modifies this`requestReboot, this`requestRebootTime, this`factoryResetDone
      ensures Valid()
      ensures old(requestReboot) ==>
                requestReboot && requestRebootTime == old(requestRebootTime) && factoryResetDone == old(factoryResetDone)
      ensures !old(requestReboot) && payload == "restart" ==>
                requestReboot && requestRebootTime == now + RESTART_DELAY_S * 1000 && factoryResetDone == old(factoryResetDone)
      ensures !old(requestReboot) && payload == "factory" ==>
                requestReboot && requestRebootTime == now + FACTORY_RESET_DELAY_S * 1000 && factoryResetDone
      ensures payload != "restart" && payload != "factory" ==>
                requestReboot == old(requestReboot) && requestRebootTime == old(requestRebootTime) &&
                factoryResetDone == old(factoryResetDone)
    {
      if payload == "restart" && !requestReboot {
        SendRebootRequest(RESTART_DELAY_S, now);
      } else if payload == "factory" && !requestReboot {
        SendRebootRequest(FACTORY_RESET_DELAY_S, now);
        factoryResetDone := true;
      }
    }

    /** The system option request: a valid web panel setting that differs from the current one is stored and a reboot scheduled. */
    method OnSystemOption(webPanel: Option<string>, now: nat)
      requires Valid() && now == clock
      modifies this`webPanelDisable, this`requestReboot, this`requestRebootTime
      ensures Valid()
      ensures PanelRequest(webPanel) == Some(!old(webPanelDisable)) ==>
                webPanelDisable == !old(webPanelDisable) && requestReboot &&
                requestRebootTime == now + OPTION_REBOOT_DELAY_S * 1000
      ensures PanelRequest(webPanel) != Some(!old(webPanelDisable)) ==>
                webPanelDisable == old(webPanelDisable) && requestReboot == old(requestReboot) &&
                requestRebootTime == old(requestRebootTime)
    {
      if webPanel.Some? && (webPanel.value == "On" || webPanel.value == "Off") {
        var newDisable := webPanel.value == "Off";
        if webPanelDisable != newDisable {
          webPanelDisable := newDisable;
          SendRebootRequest(OPTION_REBOOT_DELAY_S, now);
        }
      }
    }

    /** The settings part of `mqttCallback`'s dispatch; only the wanted settings change. */
    method OnSettingTopic(cmd: Command) returns (update: bool)
      requires Valid() && IsSettingTopic(cmd)
      modifies this`hp
      ensures Valid()
      ensures hp == PumpAfter(cmd, old(hp), useFahrenheit, timing)
      ensures update <==> Edits(cmd)
    {
      match cmd {
        case PowerSet(p) =>
          update := OnPowerSet(CString(p));
        case ModeSet(p) =>
          var published;
          update, published := OnModeSet(CString(p));
        case TempSet(t) =>
          update := OnTempSet(t);
        case FanSet(p) =>
          hp := hp.(wanted := hp.wanted.(fan := FanModeFromHa(CString(p))));
          update := true;
        case VaneSet(p) =>
          hp := hp.(wanted := hp.wanted.(vane := CString(p)));
          update := true;
        case WideVaneSet(p) =>
          hp := hp.(wanted := hp.wanted.(wideVane := CString(p)));
          update := true;
      }
    }

    /**
     * What `mqttCallback` does with one message received at `now`: the
     * driver's state and the board's state become `PumpAfter` and
     * `BoardAfter` of the old ones, and a push is scheduled exactly when the
     * message was an edit and the wanted settings now differ from the unit's.
     */
    twostate predicate Handled(cmd: Command, now: nat)
      reads this
    {
      && hp == PumpAfter(cmd, old(hp), useFahrenheit, timing)
      && Board() == BoardAfter(cmd, old(Board()), now)
      && (if Edits(cmd) && hp.current != hp.wanted
          then requestHpUpdate && requestHpUpdateTime == now + HP_UPDATE_DELAY_MS
          else requestHpUpdate == old(requestHpUpdate) && requestHpUpdateTime == old(requestHpUpdateTime))
    }

    /** A settings topic followed by the push scheduling `mqttCallback` does when the message was an edit. */
    method OnSettingAndSchedule(cmd: Command, now: nat)
      requires Valid() && now == clock && IsSettingTopic(cmd)
      modifies this`hp, this`requestHpUpdate, this`requestHpUpdateTime
      ensures Valid() && Handled(cmd, now)
    {
      var update := OnSettingTopic(cmd);
      if update {
        ScheduleHpUpdate(now);
      }
    }

    /** The remote temperature topic, which always counts as an edit. */
    method OnRemoteTempTopic(temperature: real, now: nat)
      requires Valid() && now == clock
      modifies this`remoteTempActive, this`lastRemoteTemp, this`hp, this`requestHpUpdate, this`requestHpUpdateTime
      ensures Valid() && Handled(RemoteTempSet(temperature), now)
    {
      OnRemoteTempSet(temperature, now);
      ScheduleHpUpdate(now);
    }

    /** The packet debug topic: the switch follows "on" and "off" and ignores anything else. */
    method OnDebugPacketsTopic(payload: string, now: nat)
      requires Valid()
      modifies this`debugModePckts
      ensures Valid() && Handled(DebugPacketsSet(payload), now)
    {
      ghost var board0 := Board();
      BoardTopic(DebugPacketsSet(payload), hp, board0, now, useFahrenheit, timing);
      debugModePckts := DebugFlag(CString(payload), debugModePckts);
      assert Board() == DeviceAfter(DebugPacketsSet(payload), board0);
    }

    /** The log debug topic, read like the packet debug topic. */
    method OnDebugLogsTopic(payload: string, now: nat)
      requires Valid()
      modifies this`debugModeLogs
      ensures Valid() && Handled(DebugLogsSet(payload), now)
    {
      ghost var board0 := Board();
      BoardTopic(DebugLogsSet(payload), hp, board0, now, useFahrenheit, timing);
      debugModeLogs := DebugFlag(CString(payload), debugModeLogs);
      assert Board() == DeviceAfter(DebugLogsSet(payload), board0);
    }

    /** The custom packet topic: the parsed bytes go to the driver as one raw packet. */
    method OnCustomPacketTopic(payload: string, now: nat)
      requires Valid()
      modifies this`customPackets
      ensures Valid() && Handled(CustomPacket(payload), now)
    {
      ghost var board0 := Board();
      BoardTopic(CustomPacket(payload), hp, board0, now, useFahrenheit, timing);
      var packet := ParseCustomPacket(payload);
      customPackets := customPackets + [packet];
      assert Board() == DeviceAfter(CustomPacket(payload), board0);
    }

    /** The system topic, read as a C string. */
    method OnSystemTopic(payload: string, now: nat)
      requires Valid() && now == clock
      modifies this`requestReboot, this`requestRebootTime, this`factoryResetDone
      ensures Valid() && Handled(SystemSet(payload), now)
    {
      ghost var board0 := Board();
      BoardTopic(SystemSet(payload), hp, board0, now, useFahrenheit, timing);
      OnSystemSet(CString(payload), now);
      assert Board() == SystemAfter(SystemSet(payload), board0, now);
    }

    /** The system option request. */
    method OnOptionTopic(webPanel: Option<string>, now: nat)
      requires Valid() && now == clock
      modifies this`webPanelDisable, this`requestReboot, this`requestRebootTime
      ensures Valid() && Handled(SystemOption(webPanel), now)
    {
      ghost var board0 := Board();
      BoardTopic(SystemOption(webPanel), hp, board0, now, useFahrenheit, timing);
      OnSystemOption(webPanel, now);
      assert Board() == SystemAfter(SystemOption(webPanel), board0, now);
    }

    /**
     * `mqttCallback`: dispatch one message by its topic; an edit that leaves
     * the wanted settings different from the unit's schedules a push, none is
     * sent here. It runs inside `mqtt_client.loop()`, so `now` is the time
     * the loop has already reached.
     */
    method MqttCallback(cmd: Command, now: nat)
      requires Valid() && now == clock
      modifies this`hp, this`remoteTempActive, this`lastRemoteTemp, this`debugModePckts, this`debugModeLogs
      modifies this`requestReboot, this`requestRebootTime, this`factoryResetDone, this`webPanelDisable
      modifies this`customPackets, this`requestHpUpdate, this`requestHpUpdateTime
      ensures Valid() && Handled(cmd, now)
    {
      if IsSettingTopic(cmd) {
        OnSettingAndSchedule(cmd, now);
      } else if cmd.RemoteTempSet? {
        OnRemoteTempTopic(cmd.temperature, now);
      } else if cmd.DebugPacketsSet? {
        OnDebugPacketsTopic(cmd.payload, now);
      } else if cmd.DebugLogsSet? {
        OnDebugLogsTopic(cmd.payload, now);
      } else if cmd.CustomPacket? {
        OnCustomPacketTopic(cmd.payload, now);
      } else if cmd.SystemSet? {
        OnSystemTopic(cmd.payload, now);
      } else if cmd.SystemOption? {
        OnOptionTopic(cmd.webPanel, now);
      } else {
        assert Handled(cmd, now);
      }
    }
  }
}
