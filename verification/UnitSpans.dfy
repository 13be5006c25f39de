/** Units of one text: what layout produces, an artifact stores and staging
    turns into evidence. */
module UnitSpans {

  datatype UnitSpan = UnitSpan(
    start: nat, end: nat, lineStart: nat, lineEnd: nat, startsAtLine: bool, endsAtLine: bool)

  /** Non-empty units that share their boundaries and cover `[0, length)`. */
  predicate Partition(units: seq<UnitSpan>, length: nat) {
    && (forall i :: 0 <= i < |units| ==> units[i].start < units[i].end)
    && (forall i, j :: 0 <= i < |units| && 0 <= j < |units| && j == i + 1 ==> units[j].start == units[i].end)
    && (if units == [] then length == 0 else units[0].start == 0 && units[|units|-1].end == length)
  }
}
