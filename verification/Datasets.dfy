/** Dataset records and versions, generic in how JSON documents are represented. */
module Datasets {
  import opened Results

  datatype SourceProvenance = SourceProvenance(
    kind: string, uri: Option<string>, row: Option<int>, sourceHash: Option<string>)

  datatype DatasetRecord<Doc> = DatasetRecord(
    key: string,
    payload: Doc,
    metadata: Doc,
    splits: seq<string>,
    source: SourceProvenance,
    payloadHash: string,
    envelopeHash: string)

  datatype DatasetVersion<Doc> = DatasetVersion(id: string, records: seq<DatasetRecord<Doc>>)
}
