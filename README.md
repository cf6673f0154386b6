# mitsubishi2MQTT bridge core, modelled in Dafny

mitsubishi2MQTT is ESP8266/ESP32 firmware. It links a Mitsubishi heat pump's serial port to an MQTT broker, to Home Assistant discovery and to a small web panel. This project models the logic of `main/main.cpp` that decides what the bridge does, and proves properties of that model. Hardware, network, file system and HTML output stay outside the model.

The modules are:

- `Hvac` (hvac.dfy) covers the heat pump's settings and status as values.
  - It derives the Home Assistant `mode` and `action` from them (`hpGetMode`, `hpGetAction`).
  - It maps fan speeds both ways between the unit and Home Assistant.
  - It encodes the metrics page (`handleMetrics`).
- `Commands` (commands.dfy) decodes inbound commands:
  - the power and mode topics;
  - the Celsius/Fahrenheit conversions, with `toFahrenheit`'s rounding;
  - the 23 °C fallback for out-of-range set points;
  - the web control form (`change_states`);
  - the custom packet payload, a list of hex bytes parsed with `strtok`/`strtol` into a 20-byte buffer.
- `Bridge` (bridge.dfy) is the firmware's mutable state, modelled as a class `Firmware`. It has:
  - the debounced settings push (`requestHpUpdate`, sent 10 ms after the last edit);
  - the exponential backoff of the link to the unit;
  - the remote-temperature override and its expiry;
  - the deferred reboot;
  - the WiFi and MQTT watchdogs;
  - the topic dispatch of `mqttCallback`.
    Every payload is first read as a C string, up to its first NUL (`Commands.CString`). The pure functions `PumpAfter` and `BoardAfter` say what one message does to the driver's state and to the board's state; every topic handler and the dispatcher promise them through the predicate `Handled`.

  `millis()` is a `now` parameter that never goes backwards.
- `Text` (text.dfy) holds the string helpers:
  - Arduino `String` case mapping;
  - splitting on a separator;
  - `getValueBySeparator`, as a loop method proved against a field-at-index specification.
- `WifiList` (wifi_list.dfy) models `getWifiList` over arrays.
  - It keeps the five strongest distinct SSIDs: a top-k pass, a swap sort and a join.
  - It also builds the `<option>` list the setup page shows (`getWifiOptions`).
- `Discovery` (discovery.dfy) holds the Home Assistant discovery helpers: entity tag and name tables, the config topic, and the `selected` marker of the panel's select boxes.
- `Config` (config.dfy) models the JSON configuration files as string maps. ArduinoJson reads a missing key as the text `null`.
  - It covers the defaults applied when saving, the flags derived when loading, and the round trips between the two.
  - It also covers the session-cookie check that guards the panel.

The build configuration's intervals and temperature range are parameters (`Bridge.Timing`). Every property holds for all of their values.

## Model

| member | source | states |
|---|---|---|
| Hvac.HpGetMode | main/main.cpp:2229-2249 | a unit that is off reports `off`. Otherwise FAN is reported as `fan_only`, AUTO as `heat_cool`, and every other mode as the unit's mode in lower case |
| Hvac.HpGetAction | main/main.cpp:2251-2290 | `off` when powered off, then `fan` in fan mode, then `idle` whenever the compressor is not operating. An operating unit reports `cooling`, `heating` or `drying` in cool, heat or dry mode. In auto mode it compares the room temperature with the set point: `cooling` above it, `heating` below it, `auto` at it. Any other mode is reported in lower case |
| Hvac.DerivedStateInRange | main/main.cpp:2229-2290 | for every mode the unit can report, the derived mode is a Home Assistant mode. The action is one too, except in exactly one case: AUTO while operating with the room temperature equal to the set point, where it stays `auto` |
| Hvac.ActionAgreesWithMode | main/main.cpp:2251-2290 | mode `off` if and only if action `off`. Fan mode gives action `fan`. An operating unit in heat, cool or dry mode reports heating, cooling or drying, and a unit that is not operating in those modes or heat_cool reports `idle`. Heating, cooling and drying occur only while operating, in a mode that allows them. In heat_cool the action follows the room temperature against the set point |
| Hvac.FanModeFromHp | main/main.cpp:2172-2199 | the result is always a Home Assistant fan mode; any unknown speed becomes `auto` |
| Hvac.FanModeFromHa | main/main.cpp:2201-2227 | the result is always a speed the unit knows; any unknown Home Assistant mode becomes `AUTO` |
| Hvac.FanModeRoundTrip | main/main.cpp:2172-2227 | the two fan mappings are inverse on their domains, in both directions |
| Hvac.MetricsOf | main/main.cpp:1759-1801 | the power metric is 1 exactly when the unit is on; a unit that is off reports mode 0; unknown modes and wide-vane positions report -2 |
| Hvac.MetricsDistinguishModes | main/main.cpp:1789-1799 | two powered units with the same mode metric are in the same mode |
| Hvac.MetricsDistinguishWideVanes | main/main.cpp:1773-1787 | two units with the same wide-vane metric have the same wide-vane position |
| Commands.DecodeModeSet | main/main.cpp:2465-2518 | compares the payload in upper case. `OFF` means power off; one of the five mode names means power on in a mode the unit knows; anything else is ignored |
| Commands.ModeSetRoundTrip | main/main.cpp:2229-2249 | decoding the mode that `hpGetMode` reports turns the unit off if it is off, and otherwise selects the unit's own mode, announcing the same mode |
| Commands.ModeSetAnnouncesDerivedMode | main/main.cpp:2479-2516 | the optimistic mode published for a mode command is the mode `hpGetMode` derives once the unit has taken it |
| Commands.DecodePowerSet | main/main.cpp:2439-2464 | power off exactly when the upper-cased payload is `OFF`, power on exactly when it is `ON` |
| Commands.Round | main/main.cpp:3193-3196 | the rounded value is within half a degree, and whole values are kept |
| Commands.CelsiusToLocal | main/main.cpp:3203-3213 | Celsius is shown unchanged; Fahrenheit is shown as a whole number within half a degree of the exact conversion |
| Commands.LocalToCelsius | main/main.cpp:3198-3225 | a Celsius input is kept; a Fahrenheit input is the Celsius value c with 1.8·c + 32 equal to it |
| Commands.ClampTemperature | main/main.cpp:2527-2536 | an in-range set point is kept and any other becomes 23; with 23 in range, the result is always in range |
| Commands.ApplyControl | main/main.cpp:2098-2142 | each form field that is present overrides its setting (power from the checkbox, temperature converted to Celsius) and the rest are kept. The form counts as an edit exactly when it carries the power field, a mode, a fan, a vane or a wide vane, or a set point different from the current one; when it edits nothing, the settings are returned unchanged |
| Commands.ApplyControlIdempotent | main/main.cpp:2098-2142 | posting the same form twice gives what posting it once gives |
| Commands.ApplyControlRepost | main/main.cpp:2117-2125 | re-posting the set point the control page shows changes nothing and asks for no push exactly when the shown value is exact: always in Celsius, and in Fahrenheit only for whole Fahrenheit set points |
| Commands.ApplyControlRepostExample | main/main.cpp:2117-2125 | with a 22.5 °C set point and a Fahrenheit display, the page shows 73, which posts back as 205/9 °C and counts as an edit |
| Commands.CString | main/main.cpp:2433-2435 | the copied payload holds no NUL, and a payload without NUL is copied whole |
| Commands.StrtolHex | main/main.cpp:2643 | the parsed value lies within a 32-bit `long` |
| Commands.CustomPacketBytes | main/main.cpp:2627-2646 | a custom packet has at most 20 bytes, each in 0..255 |
| Commands.ParseCustomPacket | main/main.cpp:2629-2646 | the buffer loop yields exactly the bytes the payload stands for: its first 20 space-separated tokens, each read as hex and truncated to a byte |
| Commands.PacketDebugText | main/main.cpp:2380-2391 | the debug dump of a packet takes three characters per byte |
| Commands.SplitPacketDebugText | main/main.cpp:2380-2391 | splitting the debug dump at spaces gives each byte's two hex digits, then an empty field |
| Commands.CustomPacketRoundTrip | main/main.cpp:2627-2646 | feeding a packet's debug dump back on the custom topic gives the same bytes in order, cut to the 20 the buffer holds |
| Bridge.Pow2Monotone | main/main.cpp:3343 | the backoff factor `1 << retries` never shrinks as the retry count grows |
| Bridge.BackoffBounded | main/main.cpp:3343-3349 | after a failed attempt the retry count stays within the cap. The wait before the next attempt never shortens, and never exceeds the wait at the cap |
| Bridge.NextRetries | main/main.cpp:3348 | the next retry count is the current one plus one or the cap, and exceeds neither |
| Bridge.PowerOnTemperature | main/main.cpp:2447-2459 | powering on keeps an in-range set point, and with 23 in range always sends an in-range one |
| Bridge.PowerOnResetsSetPoint | main/main.cpp:2452-2459 | with a Fahrenheit display, the power-on branch as written replaces an in-range set point by 23 whenever that set point, misread as Fahrenheit, falls below the range; the corrected rule keeps it |
| Bridge.PowerOnResetsSetPointExample | main/main.cpp:2452-2459 | a 22 °C set point on a 16 to 31 °C unit comes back as 23 as written, and stays 22 when corrected |
| Bridge.DebugFlag | main/main.cpp:2580-2609 | `on` sets the debug flag, `off` clears it, any other payload keeps it |
| Bridge.PumpAfter | main/main.cpp:2439-2579 | a message never changes the unit's own settings; a message that is not an edit changes nothing; the remote temperature topic changes only the remote temperature and every other topic leaves it alone; power and mode commands keep the fan and vane |
| Bridge.PumpAfterIdempotent | main/main.cpp:2439-2579 | a message delivered twice leaves the driver's state as one delivery does |
| Bridge.RemoteTempAfter | main/main.cpp:2563-2579 | the remote sensor is active exactly when the temperature received is not 0 |
| Bridge.DeviceAfter | main/main.cpp:2580-2652 | the debug and custom packet topics leave the reboot schedule and the remote sensor alone |
| Bridge.RebootDelay | main/main.cpp:2610-2621 | a reboot is asked for exactly by `restart` and `factory` |
| Bridge.PanelRequest | main/main.cpp:2653-2692 | only `On` and `Off` are valid web-panel values, and `Off` asks for the panel to be disabled |
| Bridge.SystemAfter | main/main.cpp:2610-2692 | while a reboot is pending the system topic changes nothing; a factory reset is never undone; debug flags and custom packets are untouched; a change of the reboot flag can only set it |
| Bridge.BoardAfter | main/main.cpp:2563-2692 | only the system topics touch the reboot schedule, the factory-reset flag and the web-panel lock, and only the remote temperature topic touches the remote sensor |
| Bridge.Firmware.constructor | main/main.cpp:136-296 | after setup nothing is pending, no retry has been made, the wanted settings equal the unit's, and the debug flags and the web-panel lock are the ones loaded from the configuration |
| Bridge.Firmware.ScheduleHpUpdate | main/main.cpp:2700-2710 | a push is scheduled 10 ms ahead only when the wanted settings differ from the unit's; otherwise the pending request is left as it was |
| Bridge.Firmware.ChangeStates | main/main.cpp:2098-2157 | the returned settings are the form applied to the given ones and become the wanted settings when edited. A push is scheduled only if they then differ from the unit's |
| Bridge.Firmware.CheckHpUpdateRequest | main/main.cpp:3411-3420 | once the deadline has passed, the wanted settings are pushed exactly once and the request is cleared; before that nothing changes |
| Bridge.Firmware.HpCheckRemoteTemp | main/main.cpp:2345-2354 | a remote temperature older than the interval is switched off, zeroed and pushed; otherwise nothing changes |
| Bridge.Firmware.SendRebootRequest | main/main.cpp:3393-3398 | a reboot becomes pending with its deadline `seconds` from now |
| Bridge.Firmware.CheckRebootRequest | main/main.cpp:3400-3409 | restarts exactly when a reboot is pending and its deadline plus the grace interval has passed, clearing the request |
| Bridge.Firmware.SyncHp | main/main.cpp:3339-3357 | while connected, syncs and resets the backoff. While disconnected, syncs only on the first attempt or once the backoff interval has passed, advancing the retry counters; otherwise it leaves them alone |
| Bridge.Firmware.CheckWifi | main/main.cpp:3320-3330 | a connected device pushes its WiFi deadline forward; a configured device that is off the network past the deadline restarts |
| Bridge.Firmware.CheckMqttReconnect | main/main.cpp:3358-3370 | a reconnect is attempted exactly when WiFi is up, the broker is down and the reconnect deadline has passed; each attempt moves the deadline |
| Bridge.Firmware.Watchdogs | main/main.cpp:3318-3330 | restarts exactly when a reboot is due or a configured device has been off the network past its WiFi deadline; a due reboot request is cleared, and otherwise a connected device moves its WiFi deadline |
| Bridge.Firmware.ServiceUnit | main/main.cpp:3331-3371 | a due push sends the wanted settings once and clears the request; a connected unit is synced with its retries reset, a disconnected one is synced only when due, advancing its retry counters; an MQTT reconnect is attempted exactly when WiFi is up, the broker is down and the deadline has passed |
| Bridge.Firmware.Loop | main/main.cpp:3310-3390 | a due reboot request is cleared and restarts; otherwise a connected device moves its WiFi deadline and a configured one off the network past it restarts. Past both, outside the captive portal, a due push sends the wanted settings once and clears the request, the unit is synced (a connected unit resets its retries; a disconnected one syncs only when due, advancing its retry counters), and an MQTT reconnect is attempted exactly when WiFi is up, the broker is down and the deadline has passed. Everything else keeps its value |
| Bridge.Firmware.OnPowerSet | main/main.cpp:2439-2464 | `off` powers off. `on` powers on in the unit's current mode with a range-checked set point. Other payloads change nothing |
| Bridge.Firmware.OnModeSet | main/main.cpp:2465-2518 | `off` powers off and publishes off/off. A known mode powers on in it and publishes the mode that `hpGetMode` will derive. Other payloads change nothing |
| Bridge.Firmware.OnTempSet | main/main.cpp:2519-2540 | keeps the unit's power and mode and wants the range-checked Celsius set point |
| Bridge.Firmware.OnRemoteTempSet | main/main.cpp:2563-2579 | the driver's state becomes what `PumpAfter` gives (0 zeroes the remote temperature, any other value feeds it in Celsius) and the board's state what `RemoteTempAfter` gives |
| Bridge.Firmware.OnSystemSet | main/main.cpp:2610-2621 | `restart` and `factory` schedule a reboot in 3 and 5 seconds, and `factory` resets. Neither does anything while a reboot is pending |
| Bridge.Firmware.OnSystemOption | main/main.cpp:2653-2692 | a valid web-panel setting that differs from the current one is stored and schedules a reboot in 5 seconds; anything else changes nothing |
| Bridge.Firmware.OnSettingTopic | main/main.cpp:2439-2561 | a setting topic changes only the wanted settings, as `PumpAfter` says: power and mode as decoded from the C-string payload, the set point range-checked in Celsius, the fan through `FanModeFromHa`, vane and wide vane as the C-string payload. It reports an edit exactly when `Edits` holds |
| Bridge.Firmware.MqttCallback | main/main.cpp:2430-2712 | per `Handled`, the driver's state becomes `PumpAfter` and the board's state `BoardAfter` of the old ones: wanted settings, remote temperature, debug flags, custom packets, reboot schedule and web-panel lock. A push is scheduled 10 ms ahead exactly when the message was an edit and the wanted settings then differ from the unit's; otherwise the pending request is kept |
| Bridge.Firmware.OnSettingAndSchedule | main/main.cpp:2439-2561 | a setting topic is handled as `Handled` says: the new wanted settings, the board untouched, and a push scheduled exactly for an edit that leaves the wanted settings different from the unit's |
| Bridge.Firmware.OnRemoteTempTopic | main/main.cpp:2563-2579 | the remote temperature topic is handled as `Handled` says; it always counts as an edit |
| Bridge.Firmware.OnDebugPacketsTopic | main/main.cpp:2580-2594 | the packet debug topic is handled as `Handled` says: only the packet debug flag may change |
| Bridge.Firmware.OnDebugLogsTopic | main/main.cpp:2595-2609 | the log debug topic is handled as `Handled` says: only the log debug flag may change |
| Bridge.Firmware.OnCustomPacketTopic | main/main.cpp:2627-2652 | the custom packet topic is handled as `Handled` says: the packet's bytes are appended to the packets sent |
| Bridge.Firmware.OnSystemTopic | main/main.cpp:2610-2621 | the system topic, read as a C string, is handled as `Handled` says |
| Bridge.Firmware.OnOptionTopic | main/main.cpp:2653-2692 | the system option request is handled as `Handled` says |
| Text.Split | main/main.cpp:3939-3955 | a string splits into at least one field |
| Text.NonEmpty | main/main.cpp:3894-3901 | dropping empty fields leaves only non-empty ones |
| Text.SplitJoin | main/main.cpp:3939-3955 | joining fields that hold no separator and splitting again gives back the fields |
| Text.FieldAtWithoutSeparator | main/main.cpp:3939-3955 | a string without the separator is its own field 0 and has no other fields |
| Text.FieldAtJoin | main/main.cpp:3939-3955 | field k of joined fields is the k-th field, and past the last field the result is empty |
| Text.GetValueBySeparator | main/main.cpp:3939-3955 | the scanning loop returns the index-th field, the whole string for a negative index, and empty text past the last field |
| WifiList.MinSlot | main/main.cpp:3845-3850 | the chosen slot is the first one holding the smallest strength |
| WifiList.SortSlots | main/main.cpp:3877-3885 | the slots end in non-increasing strength, with the same (index, strength) pairs as before |
| WifiList.GetWifiList | main/main.cpp:3830-3904 | an unfinished scan keeps the old list. A finished one lists up to five networks of the scan: strongest first, distinct SSIDs, visible names joined by `;`. Every network left out is either listed under its SSID at no less strength or beaten by all five listed ones |
| WifiList.StrongestListedFirst | main/main.cpp:3877-3885 | the list is non-empty when any network of the scan has a real reading (not `INT32_MIN`), and its first entry is at least as strong as every such network |
| WifiList.GetWifiOptions | main/main.cpp:3906-3936 | the option list is built from the list's first five fields, with the blank option first, and is empty when the first field is empty |
| WifiList.FieldOptionsJoin | main/main.cpp:3918-3929 | for a list of names joined by `;`, the first n fields give one option per name among them, in order |
| WifiList.ListOptions | main/main.cpp:3887-3936 | if no SSID contains `;`, the options page shows exactly the visible listed networks, each once, strongest first, after a blank option, and shows nothing when there are none |
| Discovery.GetEntityTag | main/main.cpp:2715-2744 | a known id gives a non-empty tag without `/`; `unknown` is returned exactly for ids past the table |
| Discovery.GetEntityName | main/main.cpp:2727-2752 | a known id gives a non-empty name; `Unknown` is returned exactly for ids past the table |
| Discovery.EntityLookupInjective | main/main.cpp:2715-2752 | distinct known ids have distinct tags and distinct names |
| Discovery.HaGetConfigTopic | main/main.cpp:2754-2768 | the friendly name used falls back to the device id when empty |
| Discovery.ConfigTopicFields | main/main.cpp:2754-2768 | when no part contains `/`, the topic splits into the prefix (custom or `homeassistant`), the entity type, the name, the tag when given, and `config` |
| Discovery.GetSelectStatus | main/main.cpp:1596-1603 | `selected` exactly when the current value is non-empty and equal to the option; otherwise empty |
| Config.SaveMqtt | main/main.cpp:626-657 | writes exactly the six fields, plus the CA certificate only when it is longer than 500 characters. The port defaults to 1883, the name to the lower-cased prefix and device id, and the topic to the default topic |
| Config.LoadMqtt | main/main.cpp:406-488 | each of the seven keys (name, broker, port, user, password, topic, CA certificate) loads as stored, and a missing one as the empty string rather than ArduinoJson's `null` |
| Config.MqttSaveLoad | main/main.cpp:406-500 | reloading a saved MQTT configuration gives the saved values. It counts as configured exactly when a broker host was given |
| Config.SaveWifi | main/main.cpp:705-725 | the access-point fields are always written, and the host name defaults. The static address, gateway and subnet are written all together or not at all, only when each is plausible. The DNS server is written only with them |
| Config.SaveUnit | main/main.cpp:667-695 | writes exactly the six unit fields with defaults cel, 1, all, allf and 0, and the password as given |
| Config.LoadUnit | main/main.cpp:525-545 | Fahrenheit, no-heat and no-quiet are switched on only by `fah`, `nht` and `nqm`. A missing password loads empty |
| Config.UnitSaveLoad | main/main.cpp:502-545 | loading a saved unit configuration at boot gives the saved unit, step and password, and the two mode restrictions exactly when they were chosen |
| Config.SaveCurrentOthers | main/main.cpp:758-765 | every switch is written as ON or OFF, the discovery topic as it is, and no temperature unit |
| Config.LoadOthers | main/main.cpp:557-603 | loading can only turn discovery off and the debug flags and web-panel lock on, each by its exact ON/OFF text. The discovery topic is read as stored (`null` when missing). A `fah` unit switches the display to Fahrenheit, and nothing switches it back |
| Config.OthersSaveLoad | main/main.cpp:557-603 | saving the current settings and loading them at boot gives back the same switches and discovery topic, and leaves the temperature unit as it was |
| Config.IndexOf | main/main.cpp:3274 | the result is -1 when the pattern occurs nowhere, and otherwise the position of its first occurrence |
| Config.CheckLogin | main/main.cpp:3300-3308 | access is allowed exactly when the session cookie is present or no login password is set |
| Config.AuthenticatedIffMarker | main/main.cpp:3268-3282 | a request is authenticated exactly when its cookie header contains `M2MSESSIONID=1` |

## Left out

- Hardware and I/O are outside the model: the serial link, SPIFFS files, the web server's HTML pages and the `events.send` pushes. They are replaced by values (settings, JSON maps, returned strings).
- MQTT publishing is left out: state and attribute messages, `hpSendLocalState`, `rootInfo`, `sendKeepAlive`, the birth topic, debug messages and the discovery payloads. `OnModeSet` returns the optimistic mode pair it would publish.
- The MQTT topic strings and their comparison with `strcmp` are not modelled. A message arrives already sorted by topic as a `Bridge.Command`, with numeric payloads already parsed; `strtof` is not modelled.
- The system option request's JSON parsing is not modelled; it arrives as the `options.webpanel` value when there is one.
- The HeatPump driver's internals are not modelled (its validation of settings, `isConnected`, and when `getSettings` changes). The unit's state is the value `Bridge.HeatPump`; `hp.update()` appends the wanted settings to `updates`.
- Single-precision floats are modelled as exact reals. `toCelsius` divides exactly; `toFahrenheit`'s rounding is kept.
- `millis()` wrap-around is not modelled: time is an unbounded natural number.
- Bridge.RetryInterval: does not model the 32-bit overflow of `1 << retries` for caps of 32 or more.
- `checkWifiScanRequest` and starting a scan are not modelled; `getWifiList` receives the finished scan, or `None` while it is running.
- Factory reset is recorded as a flag; erasing the files is not modelled. Writing the others file after a debug toggle or a web-panel change is not modelled (see `Config.SaveCurrentOthers` for its content).
- `loadWifi`, `loadOthers`' tx/rx pins, time zone and NTP server, and `loadUnit`'s `language_index` are not modelled. Config.UnitSaveLoad: does not cover the language index, because reading a string as a byte depends on ArduinoJson's conversion rules.
- The defaults compiled into the firmware (the boot flags before the configuration is loaded, the intervals, the temperature range, the default topic and host name) are not fixed here. The boot flags are the constants `Config.BOOT_UNIT` and `Config.BOOT_OTHERS`; the others are parameters.
- The caller of `hpCheckRemoteTemp` (the status-change callback of the driver) is not modelled; the method is an operation of its own.
- Bridge.Firmware.Loop: checks the reboot and WiFi watchdogs, pushes and syncs, and MQTT reconnection. The ESP32 timer used to reconnect, `mqttClient->loop()` and the captive portal's DNS server are not modelled.
- The birth topic and unknown topics only publish; they arrive as `Bridge.Command.OtherTopic` and change nothing in the model.
- Bridge.Firmware.MqttCallback: handles each message on its own, at the time `loop` last reached (`now` equals the ghost clock). On ESP8266, `mqttClient->loop()` calls the callback from inside `loop` (main/main.cpp:3378-3383). On ESP32, the espMqttClient's own task delivers `onMqttMessage` to it concurrently with `loop` (main/main.cpp:828-863, 3557-3561); that concurrency, and a message arriving part-way through a pass of `loop`, are not modelled.
- Bridge.Firmware.OnPowerSet: models the corrected power-on set point, not the one written at main/main.cpp:2452-2459 (see Findings); the as-written rule is Bridge.PowerOnTemperatureAsWritten. The same corrected rule is built into Bridge.PumpAfter, so Bridge.Firmware.OnSettingTopic, Bridge.Firmware.OnSettingAndSchedule and Bridge.Firmware.MqttCallback inherit it through `Handled`.

## Findings

| source | as written | input that shows it | evidently intended | confidence | as-written member | corrected member |
|---|---|---|---|---|---|---|
| main/main.cpp:2452-2459 | on power-on over MQTT, the unit's set point (which the driver holds in Celsius) goes through `convertLocalUnitToCelsius` as if it were in the display unit, and is then range-checked | Fahrenheit display, range 16 to 31 °C, set point 22 °C, payload `ON`: 22 read as °F is about -5.6 °C, below the range, so the unit is sent 23 °C | keep the unit's Celsius set point and range-check it as is | not executed | Bridge.PowerOnTemperatureAsWritten (shown by Bridge.PowerOnResetsSetPointExample) | Bridge.PowerOnTemperature (used by Bridge.Firmware.OnPowerSet) |
