/**
 * The change log of unmarshal.go: one `Change` per leaf whose string form
 * differs between the record before and after decoding, and the helpers
 * on a list of them.
 */
module ChangeLog {
  import opened Text

  /** A changed leaf: its dotted path and its old and new string forms. */
  datatype Change = Change(field: string, cur: string, updated: string)

  /** The zero `Change`, returned by `Find` when nothing matches. */
  const NoChange := Change("", "", "")

  /** `Change.equal`: the leaf did not change. */
  predicate Unchanged(c: Change) {
    c.cur == c.updated
  }

  /** `Change.String`: `field: cur -> new`. */
  function ChangeText(c: Change): string {
    c.field + ": " + c.cur + " -> " + c.updated
  }

  function Lines(cs: seq<Change>): (ls: seq<string>)
    ensures |ls| == |cs|
    ensures forall i :: 0 <= i < |cs| ==> ls[i] == ChangeText(cs[i])
  {
    if cs == [] then [] else [ChangeText(cs[0])] + Lines(cs[1..])
  }

  /** `Changes.String`: the changes one per line, in order. */
  function ChangesText(cs: seq<Change>): string {
    Join(Lines(cs), "\n")
  }

  /** `Changes.Empty`. */
  predicate Empty(cs: seq<Change>) {
    |cs| == 0
  }

  /**
   * When no path or value holds a line break, the text of a change list
   * splits back into exactly one line per change, in order; an empty list
   * gives the empty text.
   */
  lemma ChangesLines(cs: seq<Change>)
    requires forall i :: 0 <= i < |cs| ==> '\n' !in ChangeText(cs[i])
    ensures Empty(cs) ==> ChangesText(cs) == ""
    ensures !Empty(cs) ==> Split(ChangesText(cs), '\n') == Lines(cs)
    ensures !Empty(cs) ==> Count(ChangesText(cs), '\n') == |cs| - 1
  {
    if !Empty(cs) {
      SplitJoin(Lines(cs), '\n');
      assert "\n" == ['\n'];
    }
  }

  /** `Changes.Find`: the first change recorded for path `k`, or the zero change. */
  method Find(cs: seq<Change>, k: string) returns (c: Change)
    ensures (forall i :: 0 <= i < |cs| ==> cs[i].field != k) ==> c == NoChange
    ensures (exists i :: 0 <= i < |cs| && cs[i].field == k) ==>
      exists i :: 0 <= i < |cs| && cs[i] == c && c.field == k && forall j :: 0 <= j < i ==> cs[j].field != k
  {
    var i := 0;
    while i < |cs|
      invariant 0 <= i <= |cs|
      invariant forall j :: 0 <= j < i ==> cs[j].field != k
    {
      if cs[i].field == k {
        return cs[i];
      }
      i := i + 1;
    }
    return NoChange;
  }
}
