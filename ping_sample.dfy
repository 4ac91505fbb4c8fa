/** A latency measurement: the round trip in milliseconds and the time it was taken. */
module PingSamples {
  datatype PingSample = PingSample(millis: int, sampleTime: int)
}
