/** The decoded JSON documents the two fetchers hand to the reconcilers. */
module Payload {

  datatype Option<+T> = None | Some(value: T)

  /** One entry of a BLS series' `data` array. `value` is `None` when the
      member is missing or JSON null; `extra` stands for the remaining members
      (periodName, latest, footnotes, ...), which are only ever stored. */
  datatype BlsPoint = BlsPoint(
    year: string,
    period: string,
    value: Option<string>,
    extra: map<string, string>)

  /** The `rate` object of a metals spot-price response (JSON numbers). */
  datatype Rate = Rate(price: real, high: real, low: real)

  /** A successful metals spot-price response. */
  datatype MetalData = MetalData(
    rate: Rate,
    timestamp: string,
    extra: map<string, string>)

  /** What a row's `raw_data` column holds: the BLS point or the metals
      response it was written from, or a document some other writer stored. */
  datatype Raw = BlsRaw(point: BlsPoint) | MetalRaw(data: MetalData) | OtherRaw(text: string)
}
