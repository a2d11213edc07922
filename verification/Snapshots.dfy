/** The public snapshot of internal/publicprofile, as far as the projection, the
    publication gate and the retained split read it. */
module Snapshots {
  import opened Wrappers

  datatype Status = Available | Partial | Unavailable

  /** Failure reasons that unmeasure an agent, any other reason text, or none. */
  datatype Reason = NoReason | ApiFailed | AuthMissing | AccountApiSkipped | OtherReason

  /** The token window of an agent, when it has one. */
  datatype Window = Window(name: string, to: string)

  datatype Coverage = Coverage(tokens: Status, accountApi: bool, window: Option<Window>, reason: Reason)

  /** Totals of one agent; None is an unknown component, never zero. */
  datatype Totals = Totals(miss: Option<int>, cacheRead: Option<int>, cacheCreate: Option<int>, output: Option<int>,
                           total: Option<int>, status: Status)

  datatype Breakdown = Breakdown(id: string, totals: Totals, coverage: Coverage)

  datatype Series = Series(id: string, metric: string, values: seq<int>)

  /** asOf and dates are day numbers; None is a text that is not a date. offset is the
      owner's UTC offset in minutes. */
  datatype Snapshot = Snapshot(id: string, asOf: Option<int>, offset: Option<int>, status: Status, total: Option<int>,
                               agents: seq<Breakdown>, dates: seq<Option<int>>, series: seq<Series>)

  predicate MeasuredAgent(row: Breakdown) {
    && row.totals.status != Unavailable && row.coverage.tokens != Unavailable
    && row.coverage.reason != ApiFailed && row.coverage.reason != AuthMissing
       && row.coverage.reason != AccountApiSkipped
    && row.totals.total.Some? && row.totals.total.value > 0
  }
}
