/** The pure helpers of the control-protocol client (src/control_protocol.rs):
    choosing a neighbour by fingerprint prefix and choosing the arrow of a
    chat line. */
module ControlProtocol {
  import opened Wrappers
  import opened Types

  /** `s.starts_with(prefix)` on strings. */
  predicate StartsWith(s: string, prefix: string)
  {
    |prefix| <= |s| && s[..|prefix|] == prefix
  }

  /** The index of the first fingerprint whose display string starts with
      `prefix`, if any (`neigh_by_prefix` as a linear search). */
  function FirstMatch(fps: seq<Fingerprint>, prefix: string, display: Fingerprint -> string): (r: Option<nat>)
    ensures r.None? <==> forall i :: 0 <= i < |fps| ==> !StartsWith(display(fps[i]), prefix)
    ensures r.Some? ==> r.value < |fps| && StartsWith(display(fps[r.value]), prefix)
    ensures r.Some? ==> forall j :: 0 <= j < r.value ==> !StartsWith(display(fps[j]), prefix)
  {
    if fps == [] then None
    else if StartsWith(display(fps[0]), prefix) then Some(0)
    else
      match FirstMatch(fps[1..], prefix, display)
      case None => None
      case Some(k) => Some(k + 1)
  }

  /** `neigh_by_prefix`: the first fingerprint, in list order, whose display
      string starts with `prefix`; `None` when there is none. */
  function NeighByPrefix(fps: seq<Fingerprint>, prefix: string, display: Fingerprint -> string): (r: Option<Fingerprint>)
    ensures r.None? <==> forall i :: 0 <= i < |fps| ==> !StartsWith(display(fps[i]), prefix)
    ensures r.Some? ==> r.value in fps && StartsWith(display(r.value), prefix)
    ensures r.Some? ==> exists i :: 0 <= i < |fps| && fps[i] == r.value
                                  && forall j :: 0 <= j < i ==> !StartsWith(display(fps[j]), prefix)
  {
    match FirstMatch(fps, prefix, display)
    case None => None
    case Some(i) => Some(fps[i])
  }

  /** An empty prefix matches every display string, so a non-empty list
      yields its first element. */
  lemma EmptyPrefixPicksFirst(fps: seq<Fingerprint>, display: Fingerprint -> string)
    requires |fps| > 0
    ensures NeighByPrefix(fps, "", display) == Some(fps[0])
  {
    assert StartsWith(display(fps[0]), "");
  }

  const RIGHT_ARROW: string := "->"
  const LEFT_ARROW: string := "<-"

  /** `pretty_entry`: a chat line `arrow text time`, where the arrow points
      right for our own messages and left for received ones. The colouring
      and the rendering of the timestamp are not modelled: `time` is the
      already formatted timestamp. */
  function PrettyEntry(isMine: bool, text: string, time: string): (r: string)
    ensures |r| == 4 + |text| + |time|
    ensures r[..2] == RIGHT_ARROW <==> isMine
    ensures r[..2] == LEFT_ARROW <==> !isMine
    ensures r[2..] == " " + text + " " + time
  {
    var arrow := if isMine then RIGHT_ARROW else LEFT_ARROW;
    assert RIGHT_ARROW[0] != LEFT_ARROW[0];
    arrow + " " + text + " " + time
  }
}
