/**
  The list of export-format descriptors (`Utils::Vars::outputFormatDescription`),
  filled by `EnumerateSupportedOutputFmts` and searched by
  `GetOutputFormatDescr`.
 */
module OutputFormatCatalog {
  import opened Skry

  /** `OutputFormatDescr_t`: what a save dialog shows for one output format. */
  datatype OutputFormatDescr = OutputFormatDescr(
    skryOutpFmt: OutputFormat,
    name: string,
    patterns: seq<string>,
    defaultExtension: string)

  /** A value-initialised descriptor, as `push_back` appends it. */
  function DefaultDescr(): OutputFormatDescr {
    OutputFormatDescr(0, "", [], "")
  }

  /** The output formats the descriptor table has an entry for. */
  predicate IsKnown(id: OutputFormat) {
    id == Bmp8 || id == Tiff16 || id == Png8
  }

  /**
    The `switch` over the descriptor's format id: fills in name, patterns and
    default extension for a known format and leaves any other descriptor as it
    is.
   */
  function FillFromTable(d: OutputFormatDescr): OutputFormatDescr {
    if d.skryOutpFmt == Bmp8 then
      d.(name := "BMP 8-bit", patterns := ["*.bmp"], defaultExtension := ".bmp")
    else if d.skryOutpFmt == Tiff16 then
      d.(name := "TIFF 16-bit (uncompressed)", patterns := ["*.tif", "*.tiff"], defaultExtension := ".tif")
    else if d.skryOutpFmt == Png8 then
      d.(name := "PNG 8-bit", patterns := ["*.png"], defaultExtension := ".png")
    else
      d
  }

  /**
    The descriptor appended for format `id`. It carries `id`; a known format
    gets a non-empty name and a pattern that matches its default extension;
    any other format keeps the empty name, patterns and extension.
   */
  function Describe(id: OutputFormat): (d: OutputFormatDescr)
    ensures d.skryOutpFmt == id
    ensures IsKnown(id) <==> d.name != ""
    ensures IsKnown(id) <==> "*" + d.defaultExtension in d.patterns
    ensures !IsKnown(id) ==> d.patterns == [] && d.defaultExtension == ""
  {
    assert "*" + ".bmp" == "*.bmp" && "*" + ".tif" == "*.tif" && "*" + ".png" == "*.png";
    FillFromTable(DefaultDescr().(skryOutpFmt := id))
  }

  /** The table entries themselves. */
  lemma DescriptorTable()
    ensures Describe(Bmp8) == OutputFormatDescr(Bmp8, "BMP 8-bit", ["*.bmp"], ".bmp")
    ensures Describe(Tiff16) == OutputFormatDescr(Tiff16, "TIFF 16-bit (uncompressed)", ["*.tif", "*.tiff"], ".tif")
    ensures Describe(Png8) == OutputFormatDescr(Png8, "PNG 8-bit", ["*.png"], ".png")
  {
  }

  /** The descriptors appended for the format ids `ids`, one each, in order. */
  function DescribeAll(ids: seq<OutputFormat>): (ds: seq<OutputFormatDescr>)
    ensures |ds| == |ids|
    ensures forall k :: 0 <= k < |ids| ==> ds[k] == Describe(ids[k])
  {
    if ids == [] then []
    else DescribeAll(ids[..|ids| - 1]) + [Describe(ids[|ids| - 1])]
  }

  /** Some descriptor in `ds` is for `id`. */
  predicate HasFormat(ds: seq<OutputFormatDescr>, id: OutputFormat) {
    exists i :: 0 <= i < |ds| && ds[i].skryOutpFmt == id
  }

  /** No two descriptors in `ds` are for the same format. */
  predicate UniqueIds(ds: seq<OutputFormatDescr>) {
    forall i, j :: 0 <= i < j < |ds| ==> ds[i].skryOutpFmt != ds[j].skryOutpFmt
  }

  /** No format id occurs twice in `ids`. */
  predicate Distinct(ids: seq<OutputFormat>) {
    forall i, j :: 0 <= i < j < |ids| ==> ids[i] != ids[j]
  }

  /** The position of the first descriptor for `id`. */
  function FirstIndex(ds: seq<OutputFormatDescr>, id: OutputFormat): (i: nat)
    requires HasFormat(ds, id)
    ensures i < |ds| && ds[i].skryOutpFmt == id
    ensures forall j :: 0 <= j < i ==> ds[j].skryOutpFmt != id
  {
    if ds[0].skryOutpFmt == id then 0
    else
      assert HasFormat(ds[1..], id) by {
        var w :| 0 <= w < |ds| && ds[w].skryOutpFmt == id;
        assert ds[1..][w - 1].skryOutpFmt == id;
      }
      1 + FirstIndex(ds[1..], id)
  }

  /**
    The list built from the ids the library reports carries those ids in the
    library's order, and has no duplicate id exactly when the library reported
    none.
   */
  lemma DescribeAllKeepsIds(ids: seq<OutputFormat>)
    ensures forall k :: 0 <= k < |ids| ==> DescribeAll(ids)[k].skryOutpFmt == ids[k]
    ensures UniqueIds(DescribeAll(ids)) <==> Distinct(ids)
  {
  }

  /**
    Enumerating a second time appends every descriptor again: the list grows
    and the first reported format is then described twice.
   */
  lemma {:induction false} EnumerateTwiceDuplicates(before: seq<OutputFormatDescr>, ids: seq<OutputFormat>)
    requires |ids| > 0
    ensures before + DescribeAll(ids) + DescribeAll(ids) != before + DescribeAll(ids)
    ensures !UniqueIds(before + DescribeAll(ids) + DescribeAll(ids))
  {
    var ds := before + DescribeAll(ids) + DescribeAll(ids);
    var i, j := |before|, |before| + |ids|;
    assert ds[i] == Describe(ids[0]) && ds[j] == Describe(ids[0]);
    assert |ds| > |before + DescribeAll(ids)|;
  }

  /**
    After enumerating into a list that has no descriptor for a reported format
    `id`, looking `id` up finds the table's descriptor for it.
   */
  lemma {:induction false} LookupAfterEnumerate(before: seq<OutputFormatDescr>, ids: seq<OutputFormat>, id: OutputFormat)
    requires !HasFormat(before, id)
    requires id in ids
    ensures HasFormat(before + DescribeAll(ids), id)
    ensures var ds := before + DescribeAll(ids); ds[FirstIndex(ds, id)] == Describe(id)
  {
    var ds := before + DescribeAll(ids);
    var k :| 0 <= k < |ids| && ids[k] == id;
    assert ds[|before| + k].skryOutpFmt == id;
    var i := FirstIndex(ds, id);
    assert ds[i] == Describe(ids[i - |before|]);
  }

  /** The process-wide descriptor list (`Vars::outputFormatDescription`). */
  class Catalog {
    var descriptions: seq<OutputFormatDescr>

    /** The list starts out empty. */
    constructor ()
      ensures descriptions == []
    {
      descriptions := [];
    }

    /**
      `EnumerateSupportedOutputFmts`, given the ids that
      `SKRY_get_supported_output_formats` reports: appends one descriptor per
      id, in the library's order, and changes no descriptor already present.
     */
    method EnumerateSupportedOutputFmts(supportedFmts: seq<OutputFormat>)
      modifies this
      ensures descriptions == old(descriptions) + DescribeAll(supportedFmts)
    {
      var i := 0;
      while i < |supportedFmts|
        invariant i <= |supportedFmts|
        invariant descriptions == old(descriptions) + DescribeAll(supportedFmts[..i])
      {
        descriptions := descriptions + [DefaultDescr()];
        var last := |descriptions| - 1;
        descriptions := descriptions[last := descriptions[last].(skryOutpFmt := supportedFmts[i])];
        descriptions := descriptions[last := FillFromTable(descriptions[last])];
        assert supportedFmts[..i + 1][..i] == supportedFmts[..i];
        i := i + 1;
      }
      assert supportedFmts[..i] == supportedFmts;
    }

    /**
      `GetOutputFormatDescr`: the first descriptor for `outpFmt`. The source
      stops on `assert(0)` when there is none; here that is the precondition.
     */
    method GetOutputFormatDescr(outpFmt: OutputFormat) returns (d: OutputFormatDescr)
      requires HasFormat(descriptions, outpFmt)
      ensures d == descriptions[FirstIndex(descriptions, outpFmt)]
    {
      var i := 0;
      while i < |descriptions|
        invariant i <= FirstIndex(descriptions, outpFmt)
      {
        if descriptions[i].skryOutpFmt == outpFmt {
          return descriptions[i];
        }
        i := i + 1;
      }
      assert false;
    }
  }
}
