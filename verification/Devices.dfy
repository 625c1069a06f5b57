/** A device as a network scan reports it. */
module Devices {

  /** The name of a device type; the inference always finds one. */
  type DeviceType = s: string | s != "" witness "unknown"

  const UNKNOWN: DeviceType := "unknown"

  datatype Device = Device(
    ip: string,
    mac: string,
    hostname: string,
    vendor: string,
    iface: string,
    leaseEnd: int,
    deviceType: DeviceType,
    randomMAC: bool,
    note: string
  )
}
