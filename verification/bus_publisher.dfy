/**
 * `_publishOnBus` (FrusterLogger.js:76-97): a best-effort publish on the message bus.
 * Nothing is sent unless the bus is loaded and exposes `request`; otherwise exactly one
 * `bus.publish` is attempted, and whatever it throws is caught and dropped.
 */
module BusPublisher {

  /** The `fruster-bus` module as `_publishOnBus` finds it once its lazy `require` has run. */
  datatype Bus =
    | Absent
    | Present(hasRequest: bool, publishThrows: bool)

  /** Line 86: the bus counts as connected when it is loaded and `bus.request` is truthy. */
  predicate IsConnected(bus: Bus): (r: bool)
    ensures r ==> bus.Present?
    ensures bus.Present? && bus.hasRequest ==> r
  {
    bus.Present? && bus.hasRequest
  }

  /** A value of `uuid.v4()`, abstracted as the ordinal of the call that produced it. */
  datatype ReqId = ReqId(serial: nat)

  /** The object handed to `bus.publish`: `{reqId, data}` (lines 90-93). */
  datatype Envelope<D> = Envelope(reqId: ReqId, data: D)

  /** One call of `bus.publish(subject, envelope)`, and whether that call threw. */
  datatype Attempt<D> = Attempt(subject: string, envelope: Envelope<D>, threw: bool)

  /** The publish attempts made, and the ordinal the next `uuid.v4()` call will get. */
  datatype Publication<D> = Publication(attempts: seq<Attempt<D>>, nextSerial: nat)

  /**
   * Publishes `data` on `subject` when the bus is connected. A fresh id is drawn only
   * for an attempt; a throwing `bus.publish` is recorded in the attempt and goes no further.
   */
  function PublishOnBus<D>(bus: Bus, subject: string, data: D, serial: nat): (p: Publication<D>)
    ensures |p.attempts| <= 1
    ensures |p.attempts| == 1 <==> IsConnected(bus)
    ensures forall a :: a in p.attempts ==>
      a.subject == subject && a.envelope == Envelope(ReqId(serial), data) && a.threw == bus.publishThrows
    ensures p.nextSerial == serial + |p.attempts|
  {
    if IsConnected(bus) then
      // the try/catch of lines 89-96: the attempt is made and its error discarded
      Publication([Attempt(subject, Envelope(ReqId(serial), data), bus.publishThrows)], serial + 1)
    else
      Publication([], serial)
  }
}
