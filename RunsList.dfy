/** One row of the runs table (src/components/RunsList.tsx): the shortened
    user-token hash on the user button and the event-type badges with their
    overflow count. */
module RunsList {
  import opened Types

  const ShownTypeLimit := 3
  const HashPrefixLength := 12

  /** The event-type cell: the type badges shown, and the "+n" badge if any. */
  datatype TypeBadges = TypeBadges(shown: seq<string>, overflow: Option<int>)

  /** `event_types.slice(0, 3)` and, when more than three types are listed,
      `+(length - 3)`; a missing list renders nothing. */
  function EventTypeBadges(types: Option<seq<string>>): (b: TypeBadges)
    ensures types.None? ==> b == TypeBadges([], None)
    ensures |b.shown| <= ShownTypeLimit
    ensures types.Some? ==> b.shown <= types.value
    ensures types.Some? ==> |b.shown| == if |types.value| < ShownTypeLimit then |types.value| else ShownTypeLimit
    ensures b.overflow.Some? <==> types.Some? && |types.value| > ShownTypeLimit
    ensures b.overflow.Some? ==> b.overflow.value == |types.value| - ShownTypeLimit > 0
  {
    match types
    case None => TypeBadges([], None)
    case Some(ts) =>
      var shown := if |ts| <= ShownTypeLimit then ts else ts[..ShownTypeLimit];
      TypeBadges(shown, if |ts| > ShownTypeLimit then Some(|ts| - ShownTypeLimit) else None)
  }

  /** The badges account for every type: the shown ones plus the number on
      the overflow badge make up the whole list, and the hidden types are
      exactly those after the third. */
  lemma BadgesAccountForAll(ts: seq<string>)
    ensures var b := EventTypeBadges(Some(ts));
            |b.shown| + (if b.overflow.Some? then b.overflow.value else 0) == |ts|
    ensures var b := EventTypeBadges(Some(ts));
            b.shown + ts[|b.shown|..] == ts && (b.overflow.Some? ==> |ts[|b.shown|..]| == b.overflow.value)
  {
  }

  /** An empty list and a missing list both show no badge at all. */
  lemma EmptyAndMissingAlike()
    ensures EventTypeBadges(Some([])) == EventTypeBadges(None)
  {
  }

  /** `user_token_hash.substring(0, 12)` followed by a literal "...". */
  function HashLabel(hash: string): (shown: string)
    ensures |shown| == (if |hash| < HashPrefixLength then |hash| else HashPrefixLength) + 3
    ensures shown[..|shown| - 3] <= hash && shown[|shown| - 3..] == "..."
  {
    var prefix := if |hash| <= HashPrefixLength then hash else hash[..HashPrefixLength];
    prefix + "..."
  }

  /** The label tells hashes apart only by their first twelve characters:
      two hashes get the same label exactly when they agree up to there
      (a short hash being its own prefix). */
  lemma HashLabelsCollide(a: string, b: string)
    ensures HashLabel(a) == HashLabel(b) <==>
            (if |a| < HashPrefixLength then a else a[..HashPrefixLength]) ==
            (if |b| < HashPrefixLength then b else b[..HashPrefixLength])
  {
    var la, lb := HashLabel(a), HashLabel(b);
    if la == lb {
      assert la[..|la| - 3] == lb[..|lb| - 3];
    }
  }
}
