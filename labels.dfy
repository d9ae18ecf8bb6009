/** labelsToArray of src/util/account.ts: a free-text field split on `;`,
    each piece trimmed, empty pieces dropped, and repeats removed by using
    each text as a key of a plain object whose values are returned. */
module Labels {
  import opened Types
  import opened Strings
  import opened JsObjects

  /** The character that separates labels in the free-text field. */
  const Separator: char := ';'

  /** `.map((l) => l.trim())` */
  function TrimEach(parts: seq<string>): seq<string> {
    seq(|parts|, k requires 0 <= k < |parts| => Trim(parts[k]))
  }

  /** `.filter(Boolean)`: the empty string is the only falsy string, so the
      non-empty strings are kept, in order. */
  function NonEmpty(xs: seq<string>): seq<string> {
    if xs == [] then []
    else (if xs[0] == [] then [] else [xs[0]]) + NonEmpty(xs[1..])
  }

  /** One step of the filter. */
  lemma NonEmptyCons(x: string, rest: seq<string>)
    ensures NonEmpty([x] + rest) == (if x == [] then [] else [x]) + NonEmpty(rest)
  {
    assert ([x] + rest)[1..] == rest;
  }

  /** The filter keeps exactly the non-empty strings. */
  lemma {:induction false} NonEmptyMembers(xs: seq<string>, x: string)
    ensures x in NonEmpty(xs) <==> x in xs && x != []
  {
    if xs != [] {
      NonEmptyMembers(xs[1..], x);
      assert xs == [xs[0]] + xs[1..];
    }
  }

  /** The filter never lengthens its input. */
  lemma {:induction false} NonEmptyLength(xs: seq<string>)
    ensures |NonEmpty(xs)| <= |xs|
  {
    if xs != [] {
      NonEmptyLength(xs[1..]);
    }
  }

  /** The pieces the parser goes on to deduplicate (`splitted`). */
  function Pieces(labels: string): seq<string> {
    NonEmpty(TrimEach(Split(labels, Separator)))
  }

  /** `Object.values(obj)` for an object whose own properties are the map
      `obj`, listed in the enumeration order `keys`. */
  function ValuesOf(obj: map<string, Label>, keys: seq<string>): (r: seq<Label>)
    requires forall k :: 0 <= k < |keys| ==> keys[k] in obj
    ensures |r| == |keys| && forall k :: 0 <= k < |keys| ==> r[k] == obj[keys[k]]
  {
    seq(|keys|, i requires 0 <= i < |keys| => obj[keys[i]])
  }

  /** One label per key of `keys`, in that order. */
  function LabelsFor(keys: seq<string>): seq<Label> {
    seq(|keys|, i requires 0 <= i < |keys| => Label(keys[i]))
  }

  /** The labels labelsToArray returns for `labels`: one label per own key
      of the deduplicating object, in its enumeration order. */
  function LabelsOf(labels: string): seq<Label> {
    LabelsFor(OwnPropertyKeys(CreationOrder(Pieces(labels))))
  }

  /** labelsToArray: the loop assigns `obj[text] = { text }` for each piece
      in turn; Object.values then reads the object out. */
  method LabelsToArray(labels: string) returns (r: seq<Label>)
    ensures r == LabelsOf(labels)
  {
    var splitted := Pieces(labels);
    r := Deduplicate(splitted);
  }

  /** Lines 10-11 of labelsToArray: `obj[text] = { text }` for each piece in
      turn on a fresh object, which is then read out by Object.values. The
      object is its map of own properties and its keys' creation order. */
  method Deduplicate(splitted: seq<string>) returns (r: seq<Label>)
    ensures r == LabelsFor(OwnPropertyKeys(CreationOrder(splitted)))
  {
    var obj: map<string, Label> := map[];
    var created: seq<string> := [];
    for n := 0 to |splitted|
      invariant created == CreationOrder(splitted[..n])
      invariant forall k :: k in obj <==> k in created
      invariant forall k :: k in obj ==> obj[k] == Label(k)
    {
      var text := splitted[n];
      assert splitted[..n + 1][..n] == splitted[..n];
      if text != ProtoKey {
        if text !in obj {
          created := created + [text];
        }
        obj := obj[text := Label(text)];
      }
    }
    assert splitted[..|splitted|] == splitted;
    OwnPropertyKeysOfDistinct(created);
    r := ValuesOf(obj, OwnPropertyKeys(created));
    ValuesOfSelfLabelled(obj, OwnPropertyKeys(created));
  }

  /** Reading out an object that maps every key to the label of that key. */
  lemma ValuesOfSelfLabelled(obj: map<string, Label>, keys: seq<string>)
    requires forall k :: 0 <= k < |keys| ==> keys[k] in obj
    requires forall k :: k in obj ==> obj[k] == Label(k)
    ensures ValuesOf(obj, keys) == LabelsFor(keys)
  {
  }

  /** `x` is the trim of one of the `;`-separated parts of `labels`. */
  predicate IsTrimOfPart(labels: string, x: string) {
    exists j :: 0 <= j < |Split(labels, Separator)| && Trim(Split(labels, Separator)[j]) == x
  }

  /** Each piece is the non-empty trim of some `;`-separated part. */
  lemma PieceOrigin(labels: string, x: string) returns (j: nat)
    requires x in Pieces(labels)
    ensures j < |Split(labels, Separator)| && x == Trim(Split(labels, Separator)[j]) && x != []
  {
    var trimmed := TrimEach(Split(labels, Separator));
    NonEmptyMembers(trimmed, x);
    j :| 0 <= j < |trimmed| && trimmed[j] == x;
  }

  /** Each part whose trim is non-empty yields that trim as a piece. */
  lemma PartIsPiece(labels: string, j: nat)
    requires j < |Split(labels, Separator)| && Trim(Split(labels, Separator)[j]) != []
    ensures Trim(Split(labels, Separator)[j]) in Pieces(labels)
  {
    var trimmed := TrimEach(Split(labels, Separator));
    assert trimmed[j] in trimmed;
    NonEmptyMembers(trimmed, trimmed[j]);
  }

  /** Each returned label carries a piece's text, never `__proto__`. */
  lemma LabelIsPiece(labels: string, l: Label)
    requires l in LabelsOf(labels)
    ensures l.text in Pieces(labels) && l.text != ProtoKey
  {
    var created := CreationOrder(Pieces(labels));
    OwnPropertyKeysOfDistinct(created);
    var keys := OwnPropertyKeys(created);
    var i :| 0 <= i < |LabelsOf(labels)| && LabelsOf(labels)[i] == l;
    assert keys[i] == l.text && keys[i] in keys;
  }

  /** Each piece other than `__proto__` is returned as a label. */
  lemma PieceIsLabel(labels: string, x: string)
    requires x in Pieces(labels) && x != ProtoKey
    ensures Label(x) in LabelsOf(labels)
  {
    var created := CreationOrder(Pieces(labels));
    OwnPropertyKeysOfDistinct(created);
    var keys := OwnPropertyKeys(created);
    assert x in keys;
    var i :| 0 <= i < |keys| && keys[i] == x;
    assert LabelsOf(labels)[i] == Label(x);
  }

  /** Every returned text is non-empty and has no white space at either end. */
  lemma LabelsAreTrimmed(labels: string)
    ensures forall l :: l in LabelsOf(labels) ==> l.text != [] && IsTrimmed(l.text) && Trim(l.text) == l.text
  {
    forall l | l in LabelsOf(labels) ensures l.text != [] && IsTrimmed(l.text) && Trim(l.text) == l.text {
      LabelIsPiece(labels, l);
      var j := PieceOrigin(labels, l.text);
      TrimOfTrimmed(l.text);
    }
  }

  /** No returned text contains the separator. */
  lemma LabelsLackSeparator(labels: string)
    ensures forall l :: l in LabelsOf(labels) ==> Separator !in l.text
  {
    SplitPiecesLackSeparator(labels, Separator);
    forall l | l in LabelsOf(labels) ensures Separator !in l.text {
      LabelIsPiece(labels, l);
      var j := PieceOrigin(labels, l.text);
      TrimKeepsChars(Split(labels, Separator)[j]);
    }
  }

  /** Every returned text is the trim of some `;`-separated part of the input. */
  lemma LabelsComeFromInput(labels: string)
    ensures forall l :: l in LabelsOf(labels) ==> IsTrimOfPart(labels, l.text)
  {
    forall l | l in LabelsOf(labels) ensures IsTrimOfPart(labels, l.text) {
      LabelIsPiece(labels, l);
      var j := PieceOrigin(labels, l.text);
      assert Trim(Split(labels, Separator)[j]) == l.text;
    }
  }

  /** Every part whose trim is non-empty is represented by its trimmed text
      (the text `__proto__` aside, which creates no own property). */
  lemma InputIsLabelled(labels: string)
    ensures forall j :: (0 <= j < |Split(labels, Separator)| &&
                         Trim(Split(labels, Separator)[j]) != [] && Trim(Split(labels, Separator)[j]) != ProtoKey)
                        ==> Label(Trim(Split(labels, Separator)[j])) in LabelsOf(labels)
  {
    forall j | 0 <= j < |Split(labels, Separator)| &&
               Trim(Split(labels, Separator)[j]) != [] && Trim(Split(labels, Separator)[j]) != ProtoKey
      ensures Label(Trim(Split(labels, Separator)[j])) in LabelsOf(labels)
    {
      PartIsPiece(labels, j);
      PieceIsLabel(labels, Trim(Split(labels, Separator)[j]));
    }
  }

  /** No two returned labels have the same text. */
  lemma LabelsAreDistinct(labels: string)
    ensures forall p, q :: 0 <= p < q < |LabelsOf(labels)| ==> LabelsOf(labels)[p].text != LabelsOf(labels)[q].text
  {
    OwnPropertyKeysOfDistinct(CreationOrder(Pieces(labels)));
  }

  /** There are at most as many labels as `;`-separated parts, one more than
      the number of separators. */
  lemma LabelCountBound(labels: string)
    ensures |LabelsOf(labels)| <= multiset(labels)[Separator] + 1
  {
    NonEmptyLength(TrimEach(Split(labels, Separator)));
    OwnPropertyKeysOfDistinct(CreationOrder(Pieces(labels)));
    SplitLength(labels, Separator);
  }

  /** Nothing but white space and separators gives no labels; and no labels
      means every piece trims to the empty string or to `__proto__`. */
  lemma BlankInputGivesNoLabels(labels: string)
    ensures (forall c :: c in labels ==> c == Separator || IsWhitespace(c)) ==> LabelsOf(labels) == []
    ensures LabelsOf(labels) == [] ==> forall j :: 0 <= j < |Split(labels, Separator)| ==>
      Trim(Split(labels, Separator)[j]) == [] || Trim(Split(labels, Separator)[j]) == ProtoKey
  {
    var parts := Split(labels, Separator);
    if (forall c :: c in labels ==> c == Separator || IsWhitespace(c)) && LabelsOf(labels) != [] {
      var l := LabelsOf(labels)[0];
      LabelIsPiece(labels, l);
      var j := PieceOrigin(labels, l.text);
      SplitPiecesComeFromInput(labels, Separator);
      SplitPiecesLackSeparator(labels, Separator);
      TrimOfBlank(parts[j]);
    }
    if LabelsOf(labels) == [] {
      forall j | 0 <= j < |parts| ensures Trim(parts[j]) == [] || Trim(parts[j]) == ProtoKey {
        if Trim(parts[j]) != [] && Trim(parts[j]) != ProtoKey {
          PartIsPiece(labels, j);
          PieceIsLabel(labels, Trim(parts[j]));
        }
      }
    }
  }

  /** Enumeration order: array-index texts come first, in ascending numeric
      order; the other texts follow in the order of their first occurrence
      among the pieces (a later repeat only overwrites the value). */
  lemma LabelsOrder(labels: string)
    ensures forall p, q :: (0 <= p < q < |LabelsOf(labels)| && IsArrayIndex(LabelsOf(labels)[q].text))
                          ==> (IsArrayIndex(LabelsOf(labels)[p].text) &&
                               DecimalValue(LabelsOf(labels)[p].text) <= DecimalValue(LabelsOf(labels)[q].text))
    ensures forall p, q :: (0 <= p < q < |LabelsOf(labels)| &&
                            !IsArrayIndex(LabelsOf(labels)[p].text) && !IsArrayIndex(LabelsOf(labels)[q].text))
                          ==> (LabelsOf(labels)[p].text in Pieces(labels) && LabelsOf(labels)[q].text in Pieces(labels) &&
                               FirstIndex(Pieces(labels), LabelsOf(labels)[p].text) < FirstIndex(Pieces(labels), LabelsOf(labels)[q].text))
  {
    var created := CreationOrder(Pieces(labels));
    OwnPropertyKeysOfDistinct(created);
    CreationOrderFollowsFirstOccurrence(Pieces(labels));
    OwnPropertyKeysKeepOrder(created, Pieces(labels));
  }
}
