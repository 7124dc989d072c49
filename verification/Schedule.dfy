/** The periods of the AGV's cooperative scheduler, in milliseconds. */
module Schedule {
  const CAL_PERIOD := 100
  const FAST_PERIOD := 5
  const CON_PERIOD := 20
  const FINE_PERIOD := 10
  const SERIAL_PERIOD := 200
}
