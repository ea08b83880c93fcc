/** The documents the collector writes and the dashboard reads, with the fields
    the modelled logic looks at. Sizes in GB and other float fields are not
    modelled. */
module Records {
  import opened Wrappers

  /** What is specific to a Wi-Fi network or to a mounted partition. */
  datatype DeviceDetails =
    | WifiDetails(macAddress: string, signalStrength: int)
    | StorageDetails(mountPoint: string)

  /** A `connected_devices_details_<mac>` document: `timestamp`, `Device Type`,
      `Device Name` and the kind-specific fields. */
  datatype DeviceRecord = DeviceRecord(
    timestamp: string,
    deviceType: string,
    deviceName: string,
    details: DeviceDetails)

  /** A `cheating_devices` document. */
  datatype CheatingRecord = CheatingRecord(macAddress: string, typeOfCheating: string, timestamp: string)

  const PenDriveType := "Pen drive"
  const SecondaryStorageType := "Secondary Storage"
  const WifiType := "Wi-Fi"
  const PenDriveCheating := "Pen drive detected"

  predicate IsPenDrive(d: DeviceRecord)
  {
    d.deviceType == PenDriveType
  }
}
