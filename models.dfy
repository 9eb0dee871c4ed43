/**
 * The cached record of one design file or node subtree (the `figma_data`
 * table of backend/app/models.py), and the JSON text codec records are
 * stored through.
 */
module Models {
  import opened Wrappers
  import opened Json
  import opened Timestamps

  /**
   * One row. `fileKey` is the only required column; a whole-file entry has no
   * `nodeId`. `createdAt` and `updatedAt` are the database-side timestamps.
   */
  datatype FigmaData = FigmaData(
    id: nat,
    fileKey: string,
    nodeId: Option<string>,
    name: Option<string>,
    depth: Option<int>,
    lastModified: Option<DateTime>,
    data: Option<string>,
    createdAt: DateTime,
    updatedAt: DateTime)

  /** `json.dumps` and `json.loads`, supplied by the caller. */
  datatype Codec = Codec(dumps: Value -> string, loads: string -> Result<Value, Error>)

  /**
   * Decoding gives back every encoded plain value, as Python's `json` does.
   * `CodecWitness.WitnessRoundTrips` exhibits a codec with this property.
   */
  ghost predicate RoundTrips(c: Codec) {
    forall v :: Plain(v) ==> c.loads(c.dumps(v)) == Ok(v)
  }

  /** A node id counts as given only when it is present and not empty (Python truthiness). */
  predicate NodeIdGiven(nid: Option<string>) {
    nid.Some? && nid.value != ""
  }

  /** The text stored for a payload: a string verbatim, anything else encoded. */
  function EncodePayload(c: Codec, data: Value): (s: string)
    ensures data.Str? ==> s == data.s
    ensures !data.Str? ==> s == c.dumps(data)
  {
    if data.Str? then data.s else c.dumps(data)
  }

  /**
   * Decoding the stored text of a plain payload gives the payload back, except
   * that a string payload is stored verbatim: decoding it parses its content.
   */
  lemma PayloadDecodes(c: Codec, data: Value)
    requires RoundTrips(c) && Plain(data)
    ensures !data.Str? ==> c.loads(EncodePayload(c, data)) == Ok(data)
    ensures data.Str? ==> c.loads(EncodePayload(c, data)) == c.loads(data.s)
  {
  }
}
