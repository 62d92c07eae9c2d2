/** The progress cell `progressState` the front end polls while titles are resolved. */
module Progress {

  /** `{ current, total }`: nothing else is stored. */
  datatype ProgressState = ProgressState(current: int, total: int)

  /** The module-level binding; every update assigns a new object to it. */
  class ProgressCell {
    var state: ProgressState

    /** `export let progressState = { current: 0, total: 0 }`. */
    constructor ()
      ensures state == ProgressState(0, 0)
    {
      state := ProgressState(0, 0);
    }

    /** `updateProgress(curr, total)`: the whole object is replaced, so nothing of an
        earlier state survives; any further argument a caller passes is ignored. */
    method UpdateProgress(curr: int, total: int)
      modifies this
      ensures state == ProgressState(curr, total)
    {
      state := ProgressState(curr, total);
    }

    /** `resetProgress()`. */
    method ResetProgress()
      modifies this
      ensures state == ProgressState(0, 0)
    {
      state := ProgressState(0, 0);
    }
  }
}
