/** One row of the activity table the search and the Eddington statistics read. */
module ActivityTable {
  import opened Wrappers
  import opened Calendar

  /**
   * `id` is the row's identifier, an ordinary column; the row's position
   * in the table stands for the DataFrame index.  `start` and `distanceKm`
   * may be missing (NaT / NaN).
   */
  datatype Activity = Activity(
    id: int,
    equipment: string,
    kind: string,
    name: string,
    start: Option<Timestamp>,
    distanceKm: Option<real>)
}
