/**
 The wire contract between agent and server (internal/proto/wire.go): the records both sides
 exchange. Wire strings with a closed vocabulary are datatypes whose last constructor carries
 any other text; nullable strings are options.
 */
module Wire {

  datatype Option<+T> = None | Some(value: T)

  type Byte = x: int | 0 <= x < 256

  datatype Op = Upsert | Remove | OtherOp(text: string)

  datatype Source = Running | Installed | OtherSource(text: string)

  datatype SoftwareDelta = SoftwareDelta(
    op: Op,
    source: Source,
    name: string,
    publisher: Option<string>,
    version: Option<string>,
    sha256: Option<string>,
    signed: bool,
    signer: Option<string>,
    arch: Option<string>,
    exePath: Option<string>,
    installLocation: Option<string>,
    owningUser: Option<string>)

  /** One batch. `batchId` stands for the UUID; envelope and timestamps are not modelled. */
  datatype IngestRequest = IngestRequest(
    batchId: nat,
    fullSnapshot: bool,
    running: seq<SoftwareDelta>,
    installed: seq<SoftwareDelta>)

  /** Nil and the empty string are one value to both ends. */
  function StrVal(s: Option<string>): string {
    match s
    case None => ""
    case Some(v) => v
  }
}
