/** The three acquisition states the client exposes and the evidence is kept by. */
module AcquisitionHealth {
  datatype Health = Healthy | Recovering | Degraded
}
