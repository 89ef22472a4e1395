/** The records and enumerations shared by every component (common/types.hpp, common/Enums.hpp). */
module Types {
  type byte = b: int | 0 <= b < 0x100
  type uint16 = n: int | 0 <= n < 0x1_0000
  type uint32 = n: int | 0 <= n < 0x1_0000_0000

  /** `PeriodRule_t` is an unscoped enum of four bytes; the JSON parser can store any value in it. */
  const WEEKLY: uint32 := 0
  const SPECIF: uint32 := 1

  /** `Rules_t`, with its nested date and time records flattened. */
  datatype Rule = Rule(
    year: uint16, month: byte, day: byte,
    hour: byte, minutes: byte,
    period: uint32, weekDays: byte, amount: byte)

  datatype RuleState = Ready | Waiting | Executed

  /** `Scheduled_Rule_t`: one entry of the table the application keeps in RAM. */
  datatype Entry = Entry(rule: Rule, state: RuleState, fsIndex: byte)

  datatype Event =
    | START
    | WIFI_IFACE_UP
    | WIFI_IFACE_ERROR
    | WIFI_CREDS_OK
    | WIFI_CREDS_FAIL
    | WIFI_CREDS_NOT_FOUND
    | WIFI_CONNECTED
    | WIFI_DISCONNECTED
    | WIFI_IP_ACQUIRED
    | TIMEOUT
    | MQTT_CONNECTED
    | MQTT_DISCONNECTED
    | MQTT_UPDATE_DATA
    | MQTT_FEED_NOW
    | PROVISIONING_CREDS_RECEIVED
    | PROVISIONING_STORE_CREDENTIALS_OK
    | PROVISIONING_STORE_CREDENTIALS_ERROR

  /** `EventGroup` is a plain enumeration although `Netmgnt::Notify` uses its values as bit masks. */
  datatype Group = WIFI_EVT | MQTT_EVT | APP_EVT | PROV_EVT {
    function Code(): bv8 {
      match this
      case WIFI_EVT => 0
      case MQTT_EVT => 1
      case APP_EVT => 2
      case PROV_EVT => 3
    }
  }

  datatype Msg = Msg(evt: Event, group: Group)

  /** Depth of `net_evt_queue` (src/main.cpp). */
  const QUEUE_DEPTH: nat := 10

  /** The event queue. A put never waits: on a full queue the message is lost, and `dropped` remembers it. */
  datatype Queue = Queue(msgs: seq<Msg>, dropped: bool) {
    function Put(m: Msg): Queue {
      if |msgs| < QUEUE_DEPTH then Queue(msgs + [m], dropped) else Queue(msgs, true)
    }

    predicate Holds(e: Event) {
      exists i :: 0 <= i < |msgs| && msgs[i].evt == e
    }
  }
}
