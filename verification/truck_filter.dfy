/**
 * The query transform on the truck list's `status` parameter
 * (trucks/dto/truck-filter.dto.ts): a string such as `"available, in_maintenance"`
 * becomes the list of its comma-separated, trimmed parts; any other value passes
 * through as it is.
 */
module TruckFilter {
  import opened Text

  /** A raw query value: one string, or a value the query parser already made a list. */
  datatype QueryValue = Str(s: string) | List(items: seq<string>)

  /** The pieces of a string, each trimmed. */
  function TrimAll(pieces: seq<string>): (r: seq<string>)
    ensures |r| == |pieces|
    ensures forall i :: 0 <= i < |r| ==> r[i] == Trim(pieces[i])
  {
    if |pieces| == 0 then [] else
      var rest := TrimAll(pieces[1..]);
      assert forall i :: 1 <= i < |pieces| ==> pieces[1..][i - 1] == pieces[i];
      [Trim(pieces[0])] + rest
  }

  /** The `@Transform` on `status`. */
  function StatusTransform(value: QueryValue): (r: QueryValue)
    ensures value.List? ==> r == value
    ensures value.Str? ==> r.List? && |r.items| == Count(value.s, ',') + 1
    ensures value.Str? ==> forall i :: 0 <= i < |r.items| ==> r.items[i] == Trim(Split(value.s, ',')[i])
  {
    match value
    case Str(s) => List(TrimAll(Split(s, ',')))
    case List(_) => value
  }

  /** Trimming never brings a comma in. */
  lemma TrimKeepsCommaFree(piece: string)
    requires ',' !in piece
    ensures ',' !in Trim(piece)
  {
    TrimKeepsAbsent(piece, ',');
  }

  /** No element of a transformed string begins or ends with white space, and none holds a comma. */
  lemma TransformedItemsClean(s: string, i: nat)
    requires i < |StatusTransform(Str(s)).items|
    ensures var item := StatusTransform(Str(s)).items[i];
      && (|item| == 0 || (!IsSpace(item[0]) && !IsSpace(item[|item| - 1])))
      && ',' !in item
  {
    SplitPiecesFree(s, ',');
    TrimKeepsCommaFree(Split(s, ',')[i]);
    TrimmedEnds(Split(s, ',')[i]);
  }

  /**
   * A string with no white space around its commas and at its ends comes back
   * as exactly its comma-separated parts, and joining those parts gives the string.
   */
  lemma TransformOfCleanList(s: string)
    requires forall i :: 0 <= i < |Split(s, ',')| ==> Trim(Split(s, ',')[i]) == Split(s, ',')[i]
    ensures StatusTransform(Str(s)) == List(Split(s, ','))
    ensures Join(StatusTransform(Str(s)).items, ',') == s
  {
    JoinSplit(s, ',');
  }

  /** A list of trimmed, comma-free names survives a trip through its comma-joined string. */
  lemma JoinedNamesRoundTrip(names: seq<string>)
    requires |names| >= 1
    requires forall i :: 0 <= i < |names| ==> ',' !in names[i] && Trim(names[i]) == names[i]
    ensures StatusTransform(Str(Join(names, ','))) == List(names)
  {
    SplitJoin(names, ',');
    TrimAllFixed(names);
  }

  /** Pieces that are already trimmed come through `TrimAll` unchanged. */
  lemma TrimAllFixed(pieces: seq<string>)
    requires forall i :: 0 <= i < |pieces| ==> Trim(pieces[i]) == pieces[i]
    ensures TrimAll(pieces) == pieces
  {
    var r := TrimAll(pieces);
    assert forall i :: 0 <= i < |r| ==> r[i] == pieces[i];
  }

  /** The transform is idempotent: its output is a list, which it passes through. */
  lemma StatusTransformIdempotent(value: QueryValue)
    ensures StatusTransform(StatusTransform(value)) == StatusTransform(value)
  {
  }
}
