/** The header's connect button (src/components/Buttons.tsx). */
module Header {
  import opened Session
  import Page

  const CONNECTED_LABEL := "Connected"
  const CONNECT_LABEL := "Connect Firn"

  /** The button's text: whether the snap is installed. */
  function HeaderLabel(s: UiState): (r: string)
    ensures r == CONNECTED_LABEL <==> s.installedSnap.Some?
    ensures r == CONNECT_LABEL <==> s.installedSnap.None?
  {
    if s.installedSnap.Some? then CONNECTED_LABEL else CONNECT_LABEL
  }

  /**
   * The button's `disabled`: it only offers to connect a Flask wallet that has no snap yet while
   * no operation runs, and it is never enabled together with the operation buttons.
   */
  function HeaderDisabled(s: UiState): (r: bool)
    ensures s.installedSnap.Some? ==> r
    ensures s.locked ==> r
    ensures !s.isFlask ==> r
    ensures !r <==> s.installedSnap.None? && s.isFlask && !s.locked
    ensures !r ==> HeaderLabel(s) == CONNECT_LABEL
    ensures !r ==> Page.ActionButtonDisabled(s)
  {
    s.installedSnap.Some? || !s.isFlask || s.locked
  }
}
