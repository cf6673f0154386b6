/**
 * Names used to announce the device to Home Assistant: the entity lookup
 * tables, the discovery config topic, and the `selected` marker of the web
 * page's drop-down lists.
 */
module Discovery {
  import opened Text

  /** Largest entity id with a table entry. */
  const MAX_ENTITY_ID: nat := 8

  const ENTITY_TAGS: seq<string> := [
    "room_temperature", "connection_state", "up_time", "free_heap", "rssi",
    "bssi", "compressor_freq", "restart", "webpanel"]

  const ENTITY_NAMES: seq<string> := [
    "Room Temperature", "Connection state", "Up Time", "Free Heap", "RSSI",
    "BSSI", "Compressor Freq", "Restart", "WebPanel"]

  newtype byte = x: int | 0 <= x < 256

  /** `getEntityTag`: the table entry for a known id, "unknown" otherwise. */
  function GetEntityTag(tagId: byte): (tag: string)
    ensures tag != "" && '/' !in tag
    ensures tag == "unknown" <==> tagId as int > MAX_ENTITY_ID
  {
    if tagId as int <= MAX_ENTITY_ID then ENTITY_TAGS[tagId] else "unknown"
  }

  /** `getEntityName`: the table entry for a known id, "Unknown" otherwise. */
  function GetEntityName(tagId: byte): (name: string)
    ensures name != ""
    ensures name == "Unknown" <==> tagId as int > MAX_ENTITY_ID
  {
    if tagId as int <= MAX_ENTITY_ID then ENTITY_NAMES[tagId] else "Unknown"
  }

  /** Distinct known entities get distinct tags and names, so their discovery topics do not collide. */
  lemma EntityLookupInjective(a: byte, b: byte)
    requires a as int <= MAX_ENTITY_ID && b as int <= MAX_ENTITY_ID && a != b
    ensures GetEntityTag(a) != GetEntityTag(b)
    ensures GetEntityName(a) != GetEntityName(b)
  {
    assert forall i, j :: 0 <= i < j < |ENTITY_TAGS| ==> ENTITY_TAGS[i] != ENTITY_TAGS[j] by {
      forall i, j | 0 <= i < j < |ENTITY_TAGS|
        ensures ENTITY_TAGS[i] != ENTITY_TAGS[j]
      {
        assert |ENTITY_TAGS[i]| != |ENTITY_TAGS[j]| || ENTITY_TAGS[i][0] != ENTITY_TAGS[j][0];
      }
    }
    assert forall i, j :: 0 <= i < j < |ENTITY_NAMES| ==> ENTITY_NAMES[i] != ENTITY_NAMES[j] by {
      forall i, j | 0 <= i < j < |ENTITY_NAMES|
        ensures ENTITY_NAMES[i] != ENTITY_NAMES[j]
      {
        assert |ENTITY_NAMES[i]| != |ENTITY_NAMES[j]| || ENTITY_NAMES[i][0] != ENTITY_NAMES[j][0];
      }
    }
  }

  /** The Home Assistant discovery prefix used when no custom one is enabled. */
  const HA_DEFAULT_PREFIX: string := "homeassistant"

  /**
   * `haGetConfigTopic`: `<prefix>/<type>/<fn>/[<tag>/]config`, where the
   * friendly name falls back to the device id when empty. The second component
   * of the result is the friendly name the firmware keeps afterwards.
   */
  function HaGetConfigTopic(othersHaa: bool, othersHaaTopic: string, mqttFn: string, deviceId: string,
                            entityType: string, entityTag: string): (r: (string, string))
    ensures r.1 == (if mqttFn == "" then deviceId else mqttFn)
  {
    var prefix := if othersHaa then othersHaaTopic else HA_DEFAULT_PREFIX;
    var fn := if mqttFn == "" then deviceId else mqttFn;
    var head := prefix + "/" + entityType + "/" + fn + "/";
    var withTag := if entityTag == "" then head else head + entityTag + "/";
    (withTag + "config", fn)
  }

  /**
   * When none of its parts contains '/', the topic splits back into the prefix,
   * the entity type, the friendly name, the tag when one was given, and "config".
   */
  lemma ConfigTopicFields(othersHaa: bool, othersHaaTopic: string, mqttFn: string, deviceId: string,
                          entityType: string, entityTag: string)
    requires '/' !in othersHaaTopic && '/' !in mqttFn && '/' !in deviceId
    requires '/' !in entityType && '/' !in entityTag
    ensures var prefix := if othersHaa then othersHaaTopic else HA_DEFAULT_PREFIX;
            var r := HaGetConfigTopic(othersHaa, othersHaaTopic, mqttFn, deviceId, entityType, entityTag);
            Split(r.0, '/') ==
              if entityTag == "" then [prefix, entityType, r.1, "config"]
              else [prefix, entityType, r.1, entityTag, "config"]
  {
    var prefix := if othersHaa then othersHaaTopic else HA_DEFAULT_PREFIX;
    var fn := if mqttFn == "" then deviceId else mqttFn;
    var topic := HaGetConfigTopic(othersHaa, othersHaaTopic, mqttFn, deviceId, entityType, entityTag).0;
    var fields := if entityTag == "" then [prefix, entityType, fn, "config"]
                  else [prefix, entityType, fn, entityTag, "config"];
    TopicJoin(prefix, entityType, fn, entityTag);
    SplitJoin(fields, '/');
  }

  /** Joining the topic's fields with '/' rebuilds the topic text. */
  lemma TopicJoin(prefix: string, entityType: string, fn: string, entityTag: string)
    ensures var head := prefix + "/" + entityType + "/" + fn + "/";
            var withTag := if entityTag == "" then head else head + entityTag + "/";
            Join(if entityTag == "" then [prefix, entityType, fn, "config"]
                 else [prefix, entityType, fn, entityTag, "config"], '/') == withTag + "config"
  {
    var f3 := [prefix, entityType, fn];
    assert Join(f3, '/') == prefix + "/" + entityType + "/" + fn by {
      JoinSnoc([prefix], entityType, '/');
      assert [prefix] + [entityType] == [prefix, entityType];
      JoinSnoc([prefix, entityType], fn, '/');
      assert [prefix, entityType] + [fn] == f3;
    }
    if entityTag == "" {
      JoinSnoc(f3, "config", '/');
      assert f3 + ["config"] == [prefix, entityType, fn, "config"];
    } else {
      var f4 := f3 + [entityTag];
      JoinSnoc(f3, entityTag, '/');
      JoinSnoc(f4, "config", '/');
      assert f4 + ["config"] == [prefix, entityType, fn, entityTag, "config"];
    }
  }

  /** `getSelectStatus`: "selected" for the option equal to a non-empty current value, "" otherwise. */
  function GetSelectStatus(currStatus: string, status: string): (r: string)
    ensures r == "selected" <==> currStatus != "" && currStatus == status
    ensures r != "selected" ==> r == ""
  {
    if currStatus == "" then "" else if currStatus == status then "selected" else ""
  }
}
