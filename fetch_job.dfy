/** The batch job's entry point (`main`) and its metadata file (`write_metadata`). */
module FetchJob {
  import opened Api
  import opened Retry
  import opened Pagination
  import opened CsvExport

  /** The metadata JSON written next to the CSV. */
  datatype Metadata = Metadata(lastUpdated: string, totalRecords: nat, resourceId: string, source: string)

  /** How a run of the job ends: an uncaught fetch exception, the
      "no records" exit before anything is written, or the CSV table and
      the metadata that were written. */
  datatype JobOutcome =
    | Crashed(error: FetchError)
    | NoRecords
    | Saved(table: Table, metadata: Metadata)

  /** `write_metadata(total, ...)`, with the clock's reading `now` as a parameter. */
  function WriteMetadata(total: nat, now: string): Metadata
  {
    Metadata(now, total, RESOURCE_ID, "data.boston.gov")
  }

  /** `main`: fetch everything; stop with an error when nothing came back;
      otherwise write every fetched record as a CSV row and record how many
      were written in the metadata. */
  method RunFetchJob(net: Network, now: string) returns (outcome: JobOutcome, ghost pages: seq<Page>)
    ensures outcome.Crashed? ==> FailedRun(net, pages, outcome.error)
    ensures !outcome.Crashed? ==> CompleteRun(net, pages)
    ensures outcome.NoRecords? <==> FetchPage(net, 0, 0).Ok? && FetchPage(net, 0, 0).value.records == []
    ensures outcome.Saved? ==>
      var records := Flatten(pages);
      && records != []
      && outcome.table.header == FIELDS
      && |outcome.table.rows| == |records|
      && (forall i :: 0 <= i < |records| ==> outcome.table.rows[i] == ProjectRow(records[i]))
      && outcome.metadata == Metadata(now, |records|, RESOURCE_ID, "data.boston.gov")
  {
    var fetched;
    ghost var offsets;
    fetched, pages, offsets := FetchAllRecords(net);
    if fetched.Err? {
      FailedRunFirstPageFull(net, pages, fetched.error);
      outcome := Crashed(fetched.error);
      return;
    }
    var records := fetched.value;
    EmptyIffFirstPageEmpty(net, pages);
    if records == [] {
      outcome := NoRecords;
      return;
    }
    var table := WriteCsv(records);
    outcome := Saved(table, WriteMetadata(|records|, now));
  }
}
