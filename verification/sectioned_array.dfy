/** `SectionedArrayOf`: sections of items whose counts are cached in two
    fields that the `didSet` observer of `sectionedData` recomputes. */
module SectionedArray {

  datatype SectionedDataSource<S, E> = SectionedDataSource(section: S, items: seq<E>)

  /** `sectionedData.map { $0.items.count }`. */
  function ItemCounts<S, E>(data: seq<SectionedDataSource<S, E>>): (counts: seq<int>)
    ensures |counts| == |data|
    ensures forall i :: 0 <= i < |data| ==> counts[i] == |data[i].items|
  {
    if data == [] then [] else ItemCounts(data[..|data| - 1]) + [|data[|data| - 1].items|]
  }

  class SectionedArrayOf<S, E> {
    var sectionedData: seq<SectionedDataSource<S, E>>
    var numberOfSection: int
    var numberOfItemInSection: seq<int>

    /** The cached counts agree with the data. */
    ghost predicate Valid()
      reads this
    {
      && numberOfSection == |sectionedData|
      && |numberOfItemInSection| == |sectionedData|
      && forall i :: 0 <= i < |sectionedData| ==> numberOfItemInSection[i] == |sectionedData[i].items|
    }

    /** The default initializer: no sections, zero counts. */
    constructor ()
      ensures Valid() && sectionedData == []
    {
      sectionedData := [];
      numberOfSection := 0;
      numberOfItemInSection := [];
    }

    /** The `didSet` observer, run after every write to `sectionedData`. */
    method DidSetSectionedData()
      modifies this`numberOfSection, this`numberOfItemInSection
      ensures Valid()
    {
      numberOfSection := |sectionedData|;
      numberOfItemInSection := ItemCounts(sectionedData);
    }

    /** An assignment `sectionedData = data`, observer included. */
    method SetSectionedData(data: seq<SectionedDataSource<S, E>>)
      modifies this
      ensures Valid() && sectionedData == data
    {
      sectionedData := data;
      DidSetSectionedData();
    }

    /** `append(_:)`: the new section goes last, earlier ones are untouched. */
    method Append(newElement: SectionedDataSource<S, E>)
      modifies this
      ensures Valid()
      ensures sectionedData == old(sectionedData) + [newElement]
      ensures numberOfSection == old(|sectionedData|) + 1
      ensures numberOfItemInSection[numberOfSection - 1] == |newElement.items|
    {
      sectionedData := sectionedData + [newElement];
      DidSetSectionedData();
    }

    /** `getElement(_:)`: bounds checked against the cached counts are enough
        to reach the item. */
    function GetElement(section: int, row: int): (e: E)
      reads this
      requires Valid()
      requires 0 <= section < numberOfSection && 0 <= row < numberOfItemInSection[section]
      ensures section < |sectionedData| && row < |sectionedData[section].items|
      ensures e == sectionedData[section].items[row]
    {
      sectionedData[section].items[row]
    }
  }
}
