/** The page's shared state and the transitions the handlers dispatch on it. */
module Session {
  import opened Optional
  import opened Provider
  import opened Snap

  /** What the page reads: wallet capability, the installed snap, the lock and the banners. */
  datatype UiState = UiState(
    isFlask: bool,
    installedSnap: Option<InstalledSnap>,
    locked: bool,
    error: Option<Failure>,
    success: Option<string>)

  /** The transitions an operation handler dispatches. */
  datatype Action = SetLocked(lock: bool) | SetSuccess(message: string) | SetError(error: Failure)
}
