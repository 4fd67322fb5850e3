/** The comma-separated container sizes a trade run stores, and their round trip. */
module ContainerSizes {
  import opened Options
  import opened Sorting
  import opened DecimalText

  function Texts(sizes: seq<int>): (r: seq<string>)
    ensures |r| == |sizes|
    ensures forall k :: 0 <= k < |r| ==> r[k] == IntText(sizes[k])
  {
    if sizes == [] then [] else [IntText(sizes[0])] + Texts(sizes[1..])
  }

  function FormatContainerSizes(sizes: seq<int>): string {
    Join(Texts(Sorted(sizes)), ',')
  }

  /** Empty parts are skipped; None is the ValueError of a part that is no integer. */
  function ParseParts(parts: seq<string>): Option<seq<int>> {
    if parts == [] then
      Some([])
    else if parts[0] == [] then
      ParseParts(parts[1..])
    else
      var first, rest := ParseInt(parts[0]), ParseParts(parts[1..]);
      if first.None? || rest.None? then None else Some([first.value] + rest.value)
  }

  function ParseContainerSizes(csv: string): Option<seq<int>> {
    if csv == [] then Some([]) else ParseParts(Split(csv, ',', None))
  }

  lemma ParseFirst(part: string, parts: seq<string>, size: int, sizes: seq<int>)
    requires part != [] && ParseInt(part) == Some(size) && ParseParts(parts) == Some(sizes)
    ensures ParseParts([part] + parts) == Some([size] + sizes)
  {
    assert ([part] + parts)[1..] == parts;
  }

  lemma {:induction false} ParsePartsTexts(sizes: seq<int>)
    ensures ParseParts(Texts(sizes)) == Some(sizes)
  {
    if sizes != [] {
      ParsePartsTexts(sizes[1..]);
      ParseIntText(sizes[0]);
      ParseFirst(IntText(sizes[0]), Texts(sizes[1..]), sizes[0], sizes[1..]);
      assert sizes == [sizes[0]] + sizes[1..];
    }
  }

  /** Any list of sizes, negative ones and repeats included, comes back sorted. */
  lemma FormatParseRoundTrip(sizes: seq<int>)
    ensures ParseContainerSizes(FormatContainerSizes(sizes)) == Some(Sorted(sizes))
  {
    var sorted := Sorted(sizes);
    var texts := Texts(sorted);
    if sorted != [] {
      SplitJoin(texts, ',', None);
      ParsePartsTexts(sorted);
      assert texts[0] != [];
      assert Join(texts, ',') != [];
    }
  }

  // ----- Exactly which texts are sizes -----

  function NonEmpty(parts: seq<string>): seq<string> {
    if parts == [] then [] else (if parts[0] == "" then [] else [parts[0]]) + NonEmpty(parts[1..])
  }

  /** Each text is the integer at its place. */
  ghost predicate AreTextsOf(texts: seq<string>, sizes: seq<int>) {
    |texts| == |sizes| && forall k :: 0 <= k < |sizes| ==> ParseInt(texts[k]) == Some(sizes[k])
  }

  lemma {:induction false} PartsParseIff(parts: seq<string>, sizes: seq<int>)
    ensures ParseParts(parts) == Some(sizes) <==> AreTextsOf(NonEmpty(parts), sizes)
  {
    if parts != [] {
      var texts := NonEmpty(parts[1..]);
      if parts[0] == "" {
        PartsParseIff(parts[1..], sizes);
        assert NonEmpty(parts) == texts;
      } else {
        assert NonEmpty(parts) == [parts[0]] + texts;
        if sizes != [] {
          PartsParseIff(parts[1..], sizes[1..]);
          assert sizes == [sizes[0]] + sizes[1..];
          assert AreTextsOf([parts[0]] + texts, sizes) <==> ParseInt(parts[0]) == Some(sizes[0]) && AreTextsOf(texts, sizes[1..]) by {
            assert ([parts[0]] + texts)[1..] == texts;
          }
        }
      }
    }
  }

  /** The comma-separated texts parts come back as sizes if and only if those that are not empty spell them out. */
  lemma SizesParseIff(parts: seq<string>, sizes: seq<int>)
    requires parts != [] && forall k :: 0 <= k < |parts| ==> ',' !in parts[k]
    ensures ParseContainerSizes(Join(parts, ',')) == Some(sizes) <==> AreTextsOf(NonEmpty(parts), sizes)
  {
    var csv := Join(parts, ',');
    SplitJoin(parts, ',', None);
    PartsParseIff(parts, sizes);
    if csv == [] {
      assert Split(csv, ',', None) == [""];
      PartsParseIff([""], sizes);
    }
  }

  /** What is stored: the sorted sizes' texts, with commas between them. */
  lemma FormatIsCommaSeparated(sizes: seq<int>)
    requires sizes != []
    ensures var texts := Split(FormatContainerSizes(sizes), ',', None);
            |texts| == |Sorted(sizes)| && forall k :: 0 <= k < |texts| ==> texts[k] == IntText(Sorted(sizes)[k])
  {
    assert sizes[0] in multiset(Sorted(sizes));
    var texts := Texts(Sorted(sizes));
    forall k | 0 <= k < |texts| ensures ',' !in texts[k] {
      assert texts[k] == IntText(Sorted(sizes)[k]);
    }
    SplitJoin(texts, ',', None);
  }
}
