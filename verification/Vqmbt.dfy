/** The interface shared by the kernel module and the user module: events, device
    records and error codes. */
module Vqmbt {

  datatype Option<+T> = None | Some(value: T)

  /** One past the largest value of C's 32-bit unsigned int. */
  const WORD_LIMIT: int := 0x1_0000_0000

  /** VQMBT_MAX_DEVICES. */
  const MAX_DEVICES: int := 8

  datatype EventId =
    | NoEvent
    | DroppedEvents
    | BluetoothEnabled
    | BluetoothDisabled
    | DeviceAddedRemovedConnecting
    | DeviceDisconnected
    | DeviceConnectSuccess
    | DeviceConnectFailed
    | DeviceConnectAborted
    | DeviceConnectCancelled

  /** Three machine words; the ring copies them one at a time. */
  datatype Event = Event(id: EventId, mac0: bv32, mac1: bv32)

  const ZERO_EVENT := Event(NoEvent, 0, 0)

  /** `state` is whatever int the Bluetooth stack reported; see the BT_STATE constants. */
  datatype Device = Device(name: string, mac0: bv32, mac1: bv32, state: int)

  const ZERO_DEVICE := Device("", 0, 0, 0)

  const BT_STATE_DISCONNECTED := 1
  const BT_STATE_CONNECTING := 2
  const BT_STATE_CONNECTED_HID := 3
  const BT_STATE_DISCONNECTING := 4
  const BT_STATE_CONNECTED := 5
  const BT_STATE_REGISTERING := 6

  /** The VqmbtError values, as the negative ints the C enum gives them. */
  const ERROR_INVALID_ARGUMENT: int := 0x8069_0001 - WORD_LIMIT
  const ERROR_KERNEL_SIDE: int := 0x8069_0002 - WORD_LIMIT
  const ERROR_NOT_CONNECTABLE: int := 0x8069_0003 - WORD_LIMIT
  const ERROR_BUSY: int := 0x8069_0004 - WORD_LIMIT
  const ERROR_OVERFLOW: int := 0x8069_0005 - WORD_LIMIT
}
