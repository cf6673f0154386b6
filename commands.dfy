/**
 * Decoding of inbound commands: the MQTT mode and power payloads, the
 * temperature range rule, the web control form (`change_states`), and the
 * custom packet payload of space-separated hexadecimal bytes.
 */
module Commands {
  import opened Wrappers
  import opened Text
  import opened Hvac

  /** What a payload on the mode topic asks for. */
  datatype ModeCommand =
    | TurnOff
      /** Power on in `deviceMode`; `haMode`/`haAction` are published at once as the optimistic state. */
    | SelectMode(deviceMode: string, haMode: string, haAction: string)
    | Ignored

  /** The mode-topic branch of `mqttCallback`: the payload is compared in upper case. */
  function DecodeModeSet(payload: string): (r: ModeCommand)
    ensures r.TurnOff? <==> ToUpper(payload) == "OFF"
    ensures r.SelectMode? ==> r.deviceMode in DeviceModes && r.haMode in HaModes && r.haAction in HaActions
    ensures r.Ignored? <==> ToUpper(payload) !in {"OFF", "HEAT_COOL", "HEAT", "COOL", "DRY", "FAN_ONLY"}
  {
    var mode := ToUpper(payload);
    if mode == "OFF" then TurnOff
    else if mode == "HEAT_COOL" then SelectMode("AUTO", "heat_cool", "idle")
    else if mode == "HEAT" then SelectMode("HEAT", "heat", "heating")
    else if mode == "COOL" then SelectMode("COOL", "cool", "cooling")
    else if mode == "DRY" then SelectMode("DRY", "dry", "drying")
    else if mode == "FAN_ONLY" then SelectMode("FAN", "fan_only", "fan")
    else Ignored
  }

  /** The mode names Home Assistant publishes, in upper case as the mode topic compares them. */
  lemma HaModeUpper(m: string)
    requires m in HaModes
    ensures m == "heat_cool" ==> ToUpper(m) == "HEAT_COOL"
    ensures m == "fan_only" ==> ToUpper(m) == "FAN_ONLY"
    ensures m == "heat" ==> ToUpper(m) == "HEAT"
    ensures m == "cool" ==> ToUpper(m) == "COOL"
    ensures m == "dry" ==> ToUpper(m) == "DRY"
    ensures m == "off" ==> ToUpper(m) == "OFF"
  {
  }

  /**
   * The optimistic mode published for a mode command is the mode that
   * `hpGetMode` derives once the unit has taken the command, and decoding the
   * mode `hpGetMode` reports recovers the unit's own mode: the two mappings are
   * inverse on the driver's modes.
   */
  lemma {:induction false} ModeSetRoundTrip(s: Settings)
    requires s.mode in DeviceModes
    ensures PoweredOff(s) ==> DecodeModeSet(HpGetMode(s)) == TurnOff
    ensures !PoweredOff(s) ==>
              DecodeModeSet(HpGetMode(s)).SelectMode? &&
              DecodeModeSet(HpGetMode(s)).deviceMode == s.mode &&
              DecodeModeSet(HpGetMode(s)).haMode == HpGetMode(s)
  {
    DeviceModeLower(s.mode);
    var m := HpGetMode(s);
    DerivedStateInRange(Status(0.0, false, 0), s);
    HaModeUpper(m);
  }

  /** Applying a decoded mode command (power on, new mode) yields the optimistic mode it announced. */
  lemma {:induction false} ModeSetAnnouncesDerivedMode(payload: string, s: Settings)
    requires DecodeModeSet(payload).SelectMode?
    ensures var c := DecodeModeSet(payload);
            HpGetMode(s.(power := "ON", mode := c.deviceMode)) == c.haMode
  {
    var c := DecodeModeSet(payload);
    DeviceModeLower(c.deviceMode);
    assert !EqualsIgnoreCase("ON", "off");
  }

  /** What a payload on the power topic asks for. */
  datatype PowerCommand = PowerOff | PowerOn | PowerIgnored

  /** The power-topic branch of `mqttCallback`: "on" and "off" in any letter case, anything else ignored. */
  function DecodePowerSet(payload: string): (r: PowerCommand)
    ensures r == PowerOff <==> ToUpper(payload) == "OFF"
    ensures r == PowerOn <==> ToUpper(payload) == "ON"
  {
    var p := ToUpper(payload);
    if p == "OFF" then PowerOff else if p == "ON" then PowerOn else PowerIgnored
  }

  /** `toCelsius`, exact: the firmware divides by 1.8 in single precision. */
  function ToCelsius(fahrenheit: real): real
  {
    (fahrenheit - 32.0) * 5.0 / 9.0
  }

  /** `convertLocalUnitToCelsius`. */
  function LocalToCelsius(t: real, useFahrenheit: bool): (c: real)
    ensures !useFahrenheit ==> c == t
    ensures useFahrenheit ==> 1.8 * c + 32.0 == t
  {
    if useFahrenheit then ToCelsius(t) else t
  }

  /** The set point used when a requested one lies outside the unit's range. */
  const FALLBACK_TEMPERATURE: real := 23.0

  /** Out-of-range temperatures fall back to 23 degrees Celsius instead of being refused. */
  function ClampTemperature(t: real, minTemp: real, maxTemp: real): (r: real)
    ensures minTemp <= t <= maxTemp ==> r == t
    ensures !(minTemp <= t <= maxTemp) ==> r == FALLBACK_TEMPERATURE
    ensures minTemp <= FALLBACK_TEMPERATURE <= maxTemp ==> minTemp <= r <= maxTemp
  {
    if t < minTemp || t > maxTemp then FALLBACK_TEMPERATURE else t
  }

  /**
   * The arguments of a control form post that `change_states` looks at.
   * `temp` is in the display unit; `powerChecked` is the POWER checkbox,
   * meaningful only when `powerField` (PWRCHK) is present.
   */
  datatype ControlRequest = ControlRequest(
    powerField: bool, powerChecked: bool, mode: Option<string>, temp: Option<real>,
    fan: Option<string>, vane: Option<string>, wideVane: Option<string>)

  /** `change_states` without its side effects: the edited settings, and whether anything was edited. */
  function ApplyControl(req: ControlRequest, s: Settings, useFahrenheit: bool): (r: (Settings, bool))
    ensures !r.1 ==> r.0 == s
    ensures r.1 <==> req.powerField || req.mode.Some? || req.fan.Some? || req.vane.Some? || req.wideVane.Some? ||
                     r.0.temperature != s.temperature
    ensures r.0.power == (if req.powerField then (if req.powerChecked then "ON" else "OFF") else s.power)
    ensures r.0.mode == (if req.mode.Some? then req.mode.value else s.mode)
    ensures r.0.temperature == (if req.temp.Some? then LocalToCelsius(req.temp.value, useFahrenheit) else s.temperature)
    ensures r.0.fan == (if req.fan.Some? then req.fan.value else s.fan)
    ensures r.0.vane == (if req.vane.Some? then req.vane.value else s.vane)
    ensures r.0.wideVane == (if req.wideVane.Some? then req.wideVane.value else s.wideVane)
  {
    var s1 := if req.powerField then s.(power := if req.powerChecked then "ON" else "OFF") else s;
    var s2 := if req.mode.Some? then s1.(mode := req.mode.value) else s1;
    var newTemp := if req.temp.Some? then LocalToCelsius(req.temp.value, useFahrenheit) else s2.temperature;
    var tempChanged := req.temp.Some? && newTemp != s2.temperature;
    var s3 := if tempChanged then s2.(temperature := newTemp) else s2;
    var s4 := if req.fan.Some? then s3.(fan := req.fan.value) else s3;
    var s5 := if req.vane.Some? then s4.(vane := req.vane.value) else s4;
    var s6 := if req.wideVane.Some? then s5.(wideVane := req.wideVane.value) else s5;
    var edited := req.powerField || req.mode.Some? || tempChanged ||
                  req.fan.Some? || req.vane.Some? || req.wideVane.Some?;
    (s6, edited)
  }

  /** Posting the same form twice leaves the settings as the first post left them. */
  lemma ApplyControlIdempotent(req: ControlRequest, s: Settings, useFahrenheit: bool)
    ensures ApplyControl(req, ApplyControl(req, s, useFahrenheit).0, useFahrenheit).0 == ApplyControl(req, s, useFahrenheit).0
  {
  }

  /** C's `round`: to the nearest whole number, halves away from zero. */
  function Round(x: real): (n: int)
    ensures -0.5 <= x - n as real <= 0.5
    ensures x == x.Floor as real ==> n == x.Floor
  {
    if x >= 0.0 then (x + 0.5).Floor else -((-x + 0.5).Floor)
  }

  /** `convertCelsiusToLocalUnit`: Fahrenheit values are rounded to whole degrees by `toFahrenheit`. */
  function CelsiusToLocal(c: real, useFahrenheit: bool): (t: real)
    ensures !useFahrenheit ==> t == c
    ensures useFahrenheit ==> t == t.Floor as real && -0.5 <= t - (1.8 * c + 32.0) <= 0.5
  {
    if useFahrenheit then Round(1.8 * c + 32.0) as real else c
  }

  /**
   * A form that only re-posts the set point the control page shows leaves the
   * settings alone and asks for no update exactly when the shown value is exact:
   * always in Celsius, and in Fahrenheit only when the set point is a whole
   * number of degrees Fahrenheit. Otherwise the rounded value is taken back as
   * a new set point.
   */
  lemma ApplyControlRepost(s: Settings, useFahrenheit: bool)
    ensures var shown := CelsiusToLocal(s.temperature, useFahrenheit);
            var f := 1.8 * s.temperature + 32.0;
            ApplyControl(ControlRequest(false, false, None, Some(shown), None, None, None), s, useFahrenheit) == (s, false)
            <==> (!useFahrenheit || f == f.Floor as real)
  {
    var shown := CelsiusToLocal(s.temperature, useFahrenheit);
    var f := 1.8 * s.temperature + 32.0;
    if useFahrenheit {
      var c := LocalToCelsius(shown, true);
      assert 1.8 * c + 32.0 == shown;
      if f == f.Floor as real {
        assert shown == f;
        assert c == s.temperature;
      } else {
        assert shown != f;
        assert c != s.temperature;
        assert ApplyControl(ControlRequest(false, false, None, Some(shown), None, None, None), s, true).0.temperature != s.temperature;
      }
    }
  }

  /** A concrete case: at 22.5 degrees Celsius the page shows 73 degrees Fahrenheit, which posts back as about 22.78. */
  lemma ApplyControlRepostExample(s: Settings)
    requires s.temperature == 22.5
    ensures CelsiusToLocal(s.temperature, true) == 73.0
    ensures ApplyControl(ControlRequest(false, false, None, Some(73.0), None, None, None), s, true).1
    ensures ApplyControl(ControlRequest(false, false, None, Some(73.0), None, None, None), s, true).0.temperature == 205.0 / 9.0
  {
    assert Round(1.8 * 22.5 + 32.0) == 73;
  }

  // ---------------------------------------------------------------------
  // Custom packets: "fc 42 01 ..." sent on the custom topic
  // ---------------------------------------------------------------------

  /** `byte bytes[20]`: the most bytes one custom packet carries. */
  const MAX_CUSTOM_PACKET_BYTES: nat := 20
  const LONG_MAX: int := 0x7FFF_FFFF
  const LONG_MIN: int := -0x8000_0000

  /** The MQTT payload is copied into a C string, which ends at the first NUL character. */
  function CString(payload: string): (s: string)
    ensures '\0' !in s
    ensures '\0' !in payload ==> s == payload
  {
    if |payload| == 0 then ""
    else if payload[0] == '\0' then ""
    else [payload[0]] + CString(payload[1..])
  }

  /** `strtok(s, " ")` repeated: the maximal runs of characters other than a space. */
  function Tokens(s: string): seq<string>
  {
    NonEmpty(Split(s, ' '))
  }

  /** Value of a hexadecimal digit in either case, or -1. */
  function HexValue(c: char): (v: int)
    ensures -1 <= v < 16
  {
    if '0' <= c <= '9' then c as int - '0' as int
    else if 'a' <= c <= 'f' then c as int - 'a' as int + 10
    else if 'A' <= c <= 'F' then c as int - 'A' as int + 10
    else -1
  }

  /** C `isspace` in the default locale. */
  predicate IsSpace(c: char)
  {
    c == ' ' || 9 <= c as int <= 13
  }

  function SkipSpaces(s: string): (r: string)
    ensures |r| > 0 ==> !IsSpace(r[0])
  {
    if |s| > 0 && IsSpace(s[0]) then SkipSpaces(s[1..]) else s
  }

  /** The value of the hexadecimal digits that start `s`, appended to `acc`. */
  function LeadingHex(s: string, acc: nat): nat
  {
    if |s| == 0 || HexValue(s[0]) < 0 then acc
    else LeadingHex(s[1..], acc * 16 + HexValue(s[0]))
  }

  /**
   * `strtol(token, NULL, 16)` with a 32-bit `long`: leading white space, an
   * optional sign, an optional 0x prefix, then the longest run of hex digits;
   * out-of-range values saturate.
   */
  function StrtolHex(token: string): (v: int)
    ensures LONG_MIN <= v <= LONG_MAX
  {
    var u := SkipSpaces(token);
    var negative := |u| > 0 && u[0] == '-';
    var unsigned := if |u| > 0 && (u[0] == '-' || u[0] == '+') then u[1..] else u;
    var digits := if |unsigned| >= 3 && unsigned[0] == '0' && (unsigned[1] == 'x' || unsigned[1] == 'X') &&
                     HexValue(unsigned[2]) >= 0
                  then unsigned[2..] else unsigned;
    var magnitude: int := LeadingHex(digits, 0);
    var value: int := if negative then -magnitude else magnitude;
    if value > LONG_MAX then LONG_MAX else if value < LONG_MIN then LONG_MIN else value
  }

  /** Storing the `long` into a `byte` keeps its low eight bits. */
  function TokenByte(token: string): (b: int)
    ensures 0 <= b < 256
  {
    StrtolHex(token) % 256
  }

  /** The bytes a custom-packet payload stands for: its first 20 tokens, each read as a hex byte. */
  function CustomPacketBytes(payload: string): (packet: seq<int>)
    ensures |packet| <= MAX_CUSTOM_PACKET_BYTES
    ensures forall k :: 0 <= k < |packet| ==> IsByte(packet[k])
  {
    var tokens := Tokens(CString(payload));
    var n := if |tokens| < MAX_CUSTOM_PACKET_BYTES then |tokens| else MAX_CUSTOM_PACKET_BYTES;
    seq(n, k requires 0 <= k < n => TokenByte(tokens[k]))
  }

  /** The custom-packet branch of `mqttCallback`: tokens are read into the 20-byte buffer until either runs out. */
  method ParseCustomPacket(payload: string) returns (packet: seq<int>)
    ensures packet == CustomPacketBytes(payload)
  {
    var bytes := new int[MAX_CUSTOM_PACKET_BYTES];
    var tokens := Tokens(CString(payload));
    var byteCount := 0;
    while byteCount < |tokens| && byteCount < MAX_CUSTOM_PACKET_BYTES
      invariant 0 <= byteCount <= MAX_CUSTOM_PACKET_BYTES && byteCount <= |tokens|
      invariant forall k :: 0 <= k < byteCount ==> bytes[k] == TokenByte(tokens[k])
    {
      bytes[byteCount] := TokenByte(tokens[byteCount]);
      byteCount := byteCount + 1;
    }
    packet := bytes[..byteCount];
  }

  function HexDigit(d: nat): char
    requires d < 16
  {
    if d < 10 then ('0' as int + d) as char else ('a' as int + d - 10) as char
  }

  predicate IsByte(b: int) { 0 <= b < 256 }

  /** Two hex digits of one byte, as `hpPacketDebug` prints it (zero-padded). */
  function ByteText(b: int): string
    requires IsByte(b)
  {
    [HexDigit(b / 16), HexDigit(b % 16)]
  }

  /** `hpPacketDebug`'s text for a packet: each byte as two hex digits followed by a space. */
  function PacketDebugText(packet: seq<int>): (s: string)
    requires forall k :: 0 <= k < |packet| ==> IsByte(packet[k])
    ensures |s| == 3 * |packet|
    decreases |packet|
  {
    if |packet| == 0 then ""
    else PacketDebugText(packet[..|packet| - 1]) + ByteText(packet[|packet| - 1]) + " "
  }

  function ByteTexts(packet: seq<int>): (r: seq<string>)
    requires forall k :: 0 <= k < |packet| ==> IsByte(packet[k])
    ensures |r| == |packet| && forall k :: 0 <= k < |r| ==> r[k] == ByteText(packet[k])
  {
    seq(|packet|, k requires 0 <= k < |packet| => ByteText(packet[k]))
  }

  lemma {:induction false} SplitPacketDebugText(packet: seq<int>)
    requires forall k :: 0 <= k < |packet| ==> IsByte(packet[k])
    ensures Split(PacketDebugText(packet), ' ') == ByteTexts(packet) + [""]
    decreases |packet|
  {
    if |packet| == 0 {
      assert PacketDebugText(packet) == "";
      assert ByteTexts(packet) == [];
    } else {
      var init := packet[..|packet| - 1];
      var b := packet[|packet| - 1];
      var t := PacketDebugText(init);
      var bt := ByteText(b);
      SplitPacketDebugText(init);
      var f := Split(t, ' ');
      assert f == ByteTexts(init) + [""];
      assert ' ' !in bt;
      SplitAppendPlain(t, bt, ' ');
      assert f[..|f| - 1] == ByteTexts(init);
      assert f[|f| - 1] + bt == bt;
      assert Split(t + bt, ' ') == ByteTexts(init) + [bt];
      SplitAppendSep(t + bt, ' ');
      assert PacketDebugText(packet) == t + bt + [' '];
      ByteTextsSnoc(packet);
    }
  }

  lemma ByteTextsSnoc(packet: seq<int>)
    requires |packet| > 0 && forall k :: 0 <= k < |packet| ==> IsByte(packet[k])
    ensures ByteTexts(packet) == ByteTexts(packet[..|packet| - 1]) + [ByteText(packet[|packet| - 1])]
  {
  }

  lemma {:induction false} NonEmptyKeeps(fields: seq<string>)
    requires forall k :: 0 <= k < |fields| ==> fields[k] != ""
    ensures NonEmpty(fields) == fields
    decreases |fields|
  {
    if |fields| > 0 {
      NonEmptyKeeps(fields[..|fields| - 1]);
      assert fields[..|fields| - 1] + [fields[|fields| - 1]] == fields;
    }
  }

  lemma ByteTextValue(b: int)
    requires IsByte(b)
    ensures TokenByte(ByteText(b)) == b
  {
    var t := ByteText(b);
    assert SkipSpaces(t) == t;
    assert LeadingHex(t[2..], 16 * (b / 16) + b % 16) == b;
    assert LeadingHex(t[1..], b / 16) == LeadingHex(t[2..], 16 * (b / 16) + b % 16);
  }

  lemma {:induction false} DebugTextHasNoNul(packet: seq<int>)
    requires forall j :: 0 <= j < |packet| ==> IsByte(packet[j])
    ensures '\0' !in PacketDebugText(packet)
    decreases |packet|
  {
    if |packet| > 0 {
      DebugTextHasNoNul(packet[..|packet| - 1]);
    }
  }

  /**
   * The custom topic accepts the debug dump of a packet: feeding back the
   * text `hpPacketDebug` prints yields the same bytes, in order, cut to the
   * 20 the buffer holds.
   */
  lemma CustomPacketRoundTrip(packet: seq<int>)
    requires forall j :: 0 <= j < |packet| ==> IsByte(packet[j])
    ensures |Tokens(CString(PacketDebugText(packet)))| == |packet|
    ensures CustomPacketBytes(PacketDebugText(packet)) ==
            if |packet| <= MAX_CUSTOM_PACKET_BYTES then packet else packet[..MAX_CUSTOM_PACKET_BYTES]
  {
    var text := PacketDebugText(packet);
    DebugTextHasNoNul(packet);
    SplitPacketDebugText(packet);
    var texts := ByteTexts(packet);
    assert NonEmpty(texts + [""]) == NonEmpty(texts) by {
      assert (texts + [""])[..|texts|] == texts;
    }
    NonEmptyKeeps(texts);
    assert Tokens(CString(text)) == texts;
    forall k | 0 <= k < |packet|
      ensures TokenByte(texts[k]) == packet[k]
    {
      ByteTextValue(packet[k]);
    }
  }
}
