/** Worked inputs of labelsToArray: repeats, empty pieces and surrounding
    white space, the empty field and a single label. */
module LabelExamples {
  import opened Types
  import opened Strings
  import opened JsObjects
  import opened Labels

  lemma MixedSplit()
    ensures Split("a; b ; a;;c", ';') == ["a", " b ", " a", "", "c"]
  {
    var parts := ["a", " b ", " a", "", "c"];
    assert Join(parts, ';') == "a; b ; a;;c" by {
      assert Join(["c"], ';') == "c";
      assert Join(["", "c"], ';') == ";c";
      assert Join([" a", "", "c"], ';') == " a;;c";
      assert Join([" b ", " a", "", "c"], ';') == " b ; a;;c";
      assert parts[1..] == [" b ", " a", "", "c"];
    }
    forall k | 0 <= k < |parts| ensures ';' !in parts[k] {
    }
    SplitJoin(parts, ';');
  }

  lemma TrimA() ensures Trim("a") == "a" { TrimOfTrimmed("a"); }
  lemma TrimC() ensures Trim("c") == "c" { TrimOfTrimmed("c"); }
  lemma TrimSpaceA() ensures Trim(" a") == "a" {
    assert " a"[1..] == "a" && IsWhitespace(' ') && !IsWhitespace('a');
    assert TrimStart(" a") == "a";
    TrimOfTrimmed("a");
  }

  lemma TrimSpaceBSpace() ensures Trim(" b ") == "b" {
    TrimStartSpaceB();
    TrimEndBSpace();
  }

  lemma TrimStartSpaceB() ensures TrimStart(" b ") == "b " {
    assert " b "[1..] == "b " && IsWhitespace(' ') && !IsWhitespace('b');
  }

  lemma TrimEndBSpace() ensures TrimEnd("b ") == "b" {
    assert "b "[..1] == "b" && IsWhitespace(' ') && !IsWhitespace('b');
  }

  lemma MixedTrim()
    ensures TrimEach(["a", " b ", " a", "", "c"]) == ["a", "b", "a", "", "c"]
  {
    var xs := ["a", " b ", " a", "", "c"];
    var ys := ["a", "b", "a", "", "c"];
    forall k | 0 <= k < 5 ensures TrimEach(xs)[k] == ys[k] {
      if k == 0 { TrimA(); }
      else if k == 1 { TrimSpaceBSpace(); }
      else if k == 2 { TrimSpaceA(); }
      else if k == 3 { TrimOfTrimmed(""); }
      else { TrimC(); }
    }
  }

  lemma MixedFilter()
    ensures NonEmpty(["a", "b", "a", "", "c"]) == ["a", "b", "a", "c"]
  {
    NonEmptyCons("c", []);
    assert ["c"] == ["c"] + [];
    NonEmptyCons("", ["c"]);
    NonEmptyCons("a", ["", "c"]);
    assert ["a"] + ["", "c"] == ["a", "", "c"];
    NonEmptyCons("b", ["a", "", "c"]);
    assert ["b"] + ["a", "", "c"] == ["b", "a", "", "c"];
    NonEmptyCons("a", ["b", "a", "", "c"]);
    assert ["a"] + ["b", "a", "", "c"] == ["a", "b", "a", "", "c"];
  }

  lemma MixedPieces()
    ensures Pieces("a; b ; a;;c") == ["a", "b", "a", "c"]
  {
    MixedSplit();
    MixedTrim();
    MixedFilter();
  }

  lemma MixedCreation1()
    ensures CreationOrder(["a", "b"]) == ["a", "b"]
  {
    CreationOrderAppend([], "a");
    assert [] + ["a"] == ["a"];
    CreationOrderAppend(["a"], "b");
  }

  lemma MixedCreation2()
    ensures CreationOrder(["a", "b", "a"]) == ["a", "b"]
  {
    MixedCreation1();
    CreationOrderAppend(["a", "b"], "a");
    assert ["a", "b"] + ["a"] == ["a", "b", "a"];
  }

  lemma MixedCreation()
    ensures CreationOrder(["a", "b", "a", "c"]) == ["a", "b", "c"]
  {
    MixedCreation2();
    CreationOrderAppend(["a", "b", "a"], "c");
    assert ["a", "b", "a"] + ["c"] == ["a", "b", "a", "c"];
  }

  lemma MixedEnumeration()
    ensures OwnPropertyKeys(["a", "b", "c"]) == ["a", "b", "c"]
  {
    assert !IsArrayIndex("a") && !IsArrayIndex("b") && !IsArrayIndex("c");
    var ks := ["a", "b", "c"];
    assert ks[1..] == ["b", "c"] && ks[1..][1..] == ["c"];
    assert IndexKeys(ks) == [];
    assert NamedKeys(ks) == ks;
  }

  lemma MixedLabels()
    ensures LabelsFor(["a", "b", "c"]) == [Label("a"), Label("b"), Label("c")]
  {
  }

  /** "a; b ; a;;c" gives a, b, c: the repeat of a is dropped, the empty
      piece between the two separators is dropped, white space is trimmed. */
  lemma MixedInput()
    ensures LabelsOf("a; b ; a;;c") == [Label("a"), Label("b"), Label("c")]
  {
    MixedPieces();
    MixedCreation();
    MixedEnumeration();
    MixedLabels();
  }

  /** The empty field gives no labels. */
  lemma EmptyInput()
    ensures LabelsOf("") == []
  {
    BlankInputGivesNoLabels("");
  }

  /** A single label. */
  lemma SingleInput()
    ensures LabelsOf("x") == [Label("x")]
  {
    SplitOfPiece("x", ';');
    TrimOfTrimmed("x");
    assert TrimEach(["x"]) == ["x"];
    assert NonEmpty(["x"]) == ["x"];
    assert ["x"][..0] == [];
    assert CreationOrder(["x"]) == ["x"];
    assert !IsArrayIndex("x");
    assert IndexKeys(["x"]) == [] && NamedKeys(["x"]) == ["x"];
  }

  lemma TrimEachOfTwo(a: string, b: string)
    ensures TrimEach([a, b]) == [Trim(a), Trim(b)]
  {
  }

  lemma NumericSplit()
    ensures Split("b;1", ';') == ["b", "1"]
  {
    var parts := ["b", "1"];
    assert Join(parts, ';') == "b;1" by {
      assert parts[1..] == ["1"];
    }
    forall k | 0 <= k < |parts| ensures ';' !in parts[k] {
    }
    SplitJoin(parts, ';');
  }

  lemma NumericPieces()
    ensures Pieces("b;1") == ["b", "1"]
  {
    NumericSplit();
    TrimEachOfTwo("b", "1");
    TrimOfTrimmed("b");
    TrimOfTrimmed("1");
    var parts := ["b", "1"];
    assert parts[1..] == ["1"];
    assert NonEmpty(["1"]) == ["1"];
  }

  lemma NumericCreation()
    ensures CreationOrder(["b", "1"]) == ["b", "1"]
  {
    CreationOrderAppend([], "b");
    assert [] + ["b"] == ["b"];
    CreationOrderAppend(["b"], "1");
  }

  lemma NumericEnumeration()
    ensures OwnPropertyKeys(["b", "1"]) == ["1", "b"]
  {
    var parts := ["b", "1"];
    assert DecimalValue("1") == 1 by {
      assert "1"[..0] == [];
    }
    assert IsArrayIndex("1") && !IsArrayIndex("b");
    assert parts[1..] == ["1"];
    assert IndexKeys(parts) == ["1"] && NamedKeys(parts) == ["b"];
    assert SortByValue(["1"]) == ["1"];
  }

  /** "b;1" gives 1 before b: a text that is an array index is enumerated
      before every other text, whatever its position in the input. */
  lemma IndexTextComesFirst()
    ensures LabelsOf("b;1") == [Label("1"), Label("b")]
  {
    NumericPieces();
    NumericCreation();
    NumericEnumeration();
  }

  lemma ProtoSplit()
    ensures Split("__proto__;a", ';') == [ProtoKey, "a"]
  {
    var parts := [ProtoKey, "a"];
    assert Join(parts, ';') == "__proto__;a" by {
      assert parts[1..] == ["a"];
    }
    forall k | 0 <= k < |parts| ensures ';' !in parts[k] {
    }
    SplitJoin(parts, ';');
  }

  lemma ProtoTrim()
    ensures TrimEach([ProtoKey, "a"]) == [ProtoKey, "a"]
  {
    TrimEachOfTwo(ProtoKey, "a");
    TrimOfTrimmed(ProtoKey);
    TrimOfTrimmed("a");
  }

  lemma ProtoFilter()
    ensures NonEmpty([ProtoKey, "a"]) == [ProtoKey, "a"]
  {
    var parts := [ProtoKey, "a"];
    assert parts[1..] == ["a"];
    assert NonEmpty(["a"]) == ["a"];
  }

  lemma ProtoPieces()
    ensures Pieces("__proto__;a") == [ProtoKey, "a"]
  {
    ProtoSplit();
    ProtoTrim();
    ProtoFilter();
  }

  lemma ProtoCreation()
    ensures CreationOrder([ProtoKey, "a"]) == ["a"]
  {
    CreationOrderAppend([], ProtoKey);
    CreationOrderAppend([ProtoKey], "a");
    assert [ProtoKey] + ["a"] == [ProtoKey, "a"];
  }

  /** "__proto__;a" gives only a: assigning `obj.__proto__` creates no own
      property. */
  lemma ProtoTextIsDropped()
    ensures LabelsOf("__proto__;a") == [Label("a")]
  {
    ProtoPieces();
    ProtoCreation();
    ProtoEnumeration();
  }

  lemma ProtoEnumeration()
    ensures OwnPropertyKeys(["a"]) == ["a"]
  {
    assert !IsArrayIndex("a");
    assert IndexKeys(["a"]) == [] && NamedKeys(["a"]) == ["a"];
  }
}
