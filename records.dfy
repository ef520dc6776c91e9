/** Value views of a download record, shared by the pure parts of the model. */
module Records {
  import opened Wrappers
  import opened DownloadStates

  /**
   * What the pure selection, display and removal rules read of one record.
   * `manId == 0` stands for an absent download-manager id (the code only
   * tests it for truthiness); `filteredPosition == None` for a record that
   * is not in the filtered view.
   */
  datatype ItemView = ItemView(
    sessionId: int,
    state: StateBits,
    manId: int,
    written: int,
    totalSize: int,
    domain: string,
    batch: int,
    usable: string,
    filteredPosition: Option<nat>)

  /**
   * A raw record snapshot as the transport delivers it. Every field other
   * than the session id may be missing; `Object.assign` copies only the
   * fields that are present.
   */
  datatype Snapshot = Snapshot(
    sessionId: int,
    position: Option<int>,
    state: Option<StateBits>,
    url: Option<string>,
    written: Option<int>,
    totalSize: Option<int>,
    manId: Option<int>,
    batch: Option<int>,
    usable: Option<string>,
    error: Option<string>)
}
