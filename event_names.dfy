/**
 * Deriving an event name from a posterior-sample release file name. GWTC-4
 * files carry the event as their fourth '-'-separated field; the earlier
 * releases carry it as the last '-'-separated field before "_PEDataRelease".
 */
module EventNames {
  import opened Wrappers
  import opened Text
  import opened Errors

  const Gwtc4Marker := "GWTC4"
  const ReleaseMarker := "_PEDataRelease"
  const FieldSeparator: char := '-'

  /** The text of `fileName` before its first "_PEDataRelease" (all of it when there is none). */
  function ReleasePrefix(fileName: string): string
  {
    Split(fileName, ReleaseMarker)[0]
  }

  /** The event name a release file's name encodes; indexing a missing fourth field fails. */
  function EventName(fileName: string): Result<string, Error>
  {
    if Contains(fileName, Gwtc4Marker) then
      var fields := Split(fileName, [FieldSeparator]);
      if |fields| > 3 then Success(fields[3]) else Failure(MalformedFileName(fileName))
    else
      Success(Last(Split(ReleasePrefix(fileName), [FieldSeparator])))
  }

  /**
   * Derivation fails exactly for a GWTC-4 name with fewer than three '-'
   * (fewer than four fields); an event name never contains '-'.
   */
  lemma EventNameOutcome(fileName: string)
    ensures EventName(fileName).Failure? <==>
      Contains(fileName, Gwtc4Marker) && multiset(fileName)[FieldSeparator] < 3
    ensures EventName(fileName).Failure? ==>
      EventName(fileName).error == MalformedFileName(fileName)
    ensures EventName(fileName).Success? ==> FieldSeparator !in EventName(fileName).value
  {
    if Contains(fileName, Gwtc4Marker) {
      var fields := Split(fileName, [FieldSeparator]);
      SplitCharCount(fileName, FieldSeparator);
      if |fields| > 3 {
        SplitFieldsAvoidSeparator(fileName, [FieldSeparator]);
        ContainsChar(fields[3], FieldSeparator);
      }
    } else {
      SplitLastChar(ReleasePrefix(fileName), FieldSeparator);
    }
  }

  /**
   * For a GWTC-4 name the event is the fourth of the '-'-free fields that,
   * joined with '-', make up the name.
   */
  lemma Gwtc4EventName(fileName: string)
    requires Contains(fileName, Gwtc4Marker)
    requires EventName(fileName).Success?
    ensures exists fields: seq<string> ::
      && |fields| >= 4
      && Join(fields, [FieldSeparator]) == fileName
      && (forall k :: 0 <= k < |fields| ==> FieldSeparator !in fields[k])
      && fields[3] == EventName(fileName).value
  {
    var fields := Split(fileName, [FieldSeparator]);
    JoinSplit(fileName, [FieldSeparator]);
    SplitFieldsAvoidSeparator(fileName, [FieldSeparator]);
    forall k | 0 <= k < |fields| ensures FieldSeparator !in fields[k] {
      ContainsChar(fields[k], FieldSeparator);
    }
  }

  /**
   * For any other name derivation always succeeds: the event is the '-'-free
   * tail of the text before the first "_PEDataRelease", starting after the
   * last '-' of that text (or at its start when it has none).
   */
  lemma ReleaseEventName(fileName: string)
    requires !Contains(fileName, Gwtc4Marker)
    ensures EventName(fileName).Success?
    ensures var prefix := ReleasePrefix(fileName);
      && prefix <= fileName
      && !Contains(prefix, ReleaseMarker)
      && (prefix == fileName || OccursAt(fileName, ReleaseMarker, |prefix|))
    ensures var prefix, name := ReleasePrefix(fileName), EventName(fileName).value;
      && |name| <= |prefix|
      && prefix[|prefix| - |name|..] == name
      && FieldSeparator !in name
      && (|name| == |prefix| || prefix[|prefix| - |name| - 1] == FieldSeparator)
  {
    SplitHead(fileName, ReleaseMarker);
    SplitLastChar(ReleasePrefix(fileName), FieldSeparator);
  }
}
