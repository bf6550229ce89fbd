/**
 * The driver's lifecycle label and the read-only picture of a driver that
 * offers, acceptance behaviours and dispatch policies look at
 * (phase2/driver.py).
 */
module DriverStatuses {
  import opened Geometry

  /**
   * IDLE -> TO_PICKUP -> TO_DROPOFF -> IDLE. The status is a free-form label in
   * the original; `UnrecognisedStatus(name)` stands for any other label.
   */
  datatype DriverStatus = Idle | ToPickup | ToDropoff | UnrecognisedStatus(name: string)

  /** The fields of a driver that the decision and dispatch code reads. */
  datatype DriverView = DriverView(id: int, position: Point, speed: real, status: DriverStatus)
}
