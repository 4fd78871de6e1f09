/** The failure kinds the driver reports and the wrappers that carry them. */
module Outcomes {

  datatype Option<T> = None | Some(value: T)

  /** Why a driver call was rejected. */
  datatype DriverError =
    | BusError          // the I2C transaction failed at some step
    | HardwareIdError   // the identity register did not hold the BME280 chip id
    | NotReady          // a user read while the sensor is marked faulty
    | DataNotReady      // the burst read held the "no new measurement" pattern

  datatype Result<T> = Ok(value: T) | Err(error: DriverError)
}
