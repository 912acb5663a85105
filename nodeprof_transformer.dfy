/**
 * The NodeProf trace transformer: a NodeProf call-graph trace is a list of
 * call entries, and the transformer keeps the non-load entries unchanged.
 * The zero-based-to-one-based helpers exist beside it, but their application
 * is disabled, so they are modelled and related to the filter without being
 * part of its output.
 */
module NodeProfTransformer {
  import opened Coordinates
  import opened Sequences

  /** A NodeProf source location: start, end and the source file. */
  datatype SourceLocation = SourceLocation(start: Position, end: Position, source: string)

  /** One NodeProf trace entry: a call (or a module load) from one location to another. */
  datatype CallGraphEntry = CallGraphEntry(from: SourceLocation, to: SourceLocation, isLoad: bool)

  /** Adds one to both coordinates: NodeProf's zero-based positions made one-based. */
  function TransformLocationToOneBased(orig: Position): (r: Position)
    ensures r == Normalize(orig, 0, 0)
  {
    Position(orig.line + 1, orig.column + 1)
  }

  /** Converts start and end; every other field (the source file) is carried over. */
  function TransformSLToOneBased(orig: SourceLocation): (r: SourceLocation)
    ensures r.source == orig.source
    ensures r.start == Normalize(orig.start, 0, 0) && r.end == Normalize(orig.end, 0, 0)
  {
    orig.(start := TransformLocationToOneBased(orig.start), end := TransformLocationToOneBased(orig.end))
  }

  /** Converts both endpoints of an entry; `isLoad` is carried over. */
  function TransformCGEntryToOneBased(orig: CallGraphEntry): (r: CallGraphEntry)
    ensures r.isLoad == orig.isLoad
    ensures r.from == TransformSLToOneBased(orig.from) && r.to == TransformSLToOneBased(orig.to)
  {
    orig.(from := TransformSLToOneBased(orig.from), to := TransformSLToOneBased(orig.to))
  }

  /** The conversion loses nothing: distinct entries stay distinct. */
  lemma TransformCGEntryInjective(a: CallGraphEntry, b: CallGraphEntry)
    requires TransformCGEntryToOneBased(a) == TransformCGEntryToOneBased(b)
    ensures a == b
  {
    assert TransformSLToOneBased(a.from) == TransformSLToOneBased(b.from);
    assert TransformSLToOneBased(a.to) == TransformSLToOneBased(b.to);
  }

  /** `entries.filter(e => !e.isLoad)`: drops every load entry. */
  function FilterCalls(entries: seq<CallGraphEntry>): (r: seq<CallGraphEntry>)
    ensures |r| <= |entries|
    ensures forall e :: e in r <==> e in entries && !e.isLoad
  {
    if entries == [] then []
    else (if entries[0].isLoad then [] else [entries[0]]) + FilterCalls(entries[1..])
  }

  /** The exported transformer, with the file read and write left out: the filter alone. */
  function NodeProfTransform(entries: seq<CallGraphEntry>): (r: seq<CallGraphEntry>)
    ensures forall e :: e in r ==> e in entries && !e.isLoad
    ensures forall e :: e in entries && !e.isLoad ==> e in r
  {
    FilterCalls(entries)
  }

  /** Survivors keep their original relative order. */
  lemma {:induction false} FilterCallsKeepsOrder(entries: seq<CallGraphEntry>)
    ensures IsSubsequence(FilterCalls(entries), entries)
  {
    if entries != [] {
      FilterCallsKeepsOrder(entries[1..]);
      if !entries[0].isLoad {
        assert FilterCalls(entries)[1..] == FilterCalls(entries[1..]);
      } else {
        assert FilterCalls(entries) == FilterCalls(entries[1..]);
      }
    }
  }

  /** Filtering a concatenation filters each part. */
  lemma {:induction false} FilterCallsAppend(a: seq<CallGraphEntry>, b: seq<CallGraphEntry>)
    ensures FilterCalls(a + b) == FilterCalls(a) + FilterCalls(b)
  {
    if a == [] {
      assert a + b == b;
    } else {
      assert (a + b)[0] == a[0];
      assert (a + b)[1..] == a[1..] + b;
      FilterCallsAppend(a[1..], b);
    }
  }

  /** The number of load entries. */
  function LoadCount(entries: seq<CallGraphEntry>): nat {
    if entries == [] then 0
    else (if entries[0].isLoad then 1 else 0) + LoadCount(entries[1..])
  }

  /** Exactly the load entries are removed: the output is shorter by the load count. */
  lemma {:induction false} FilterCallsLength(entries: seq<CallGraphEntry>)
    ensures |FilterCalls(entries)| == |entries| - LoadCount(entries)
  {
    if entries != [] {
      FilterCallsLength(entries[1..]);
    }
  }

  /** Applies the one-based conversion to every entry. */
  function MapToOneBased(entries: seq<CallGraphEntry>): (r: seq<CallGraphEntry>)
    ensures |r| == |entries|
    ensures forall k :: 0 <= k < |entries| ==> r[k] == TransformCGEntryToOneBased(entries[k])
  {
    if entries == [] then [] else [TransformCGEntryToOneBased(entries[0])] + MapToOneBased(entries[1..])
  }

  /**
   * Because the conversion preserves `isLoad`, re-enabling the disabled
   * `.map(transformCGEntryToOneBased)` would give the same entries whether it
   * ran before or after the filter.
   */
  lemma {:induction false} FilterCommutesWithOneBased(entries: seq<CallGraphEntry>)
    ensures FilterCalls(MapToOneBased(entries)) == MapToOneBased(FilterCalls(entries))
  {
    if entries != [] {
      var mapped := MapToOneBased(entries);
      assert mapped[0] == TransformCGEntryToOneBased(entries[0]);
      assert mapped[1..] == MapToOneBased(entries[1..]);
      FilterCommutesWithOneBased(entries[1..]);
    }
  }

  /** A concrete trace: the module load in the middle is dropped, the calls pass through unconverted. */
  lemma ExampleTrace()
    ensures
      var loc := SourceLocation(Position(0, 0), Position(0, 5), "a.js");
      var call1 := CallGraphEntry(loc, loc, false);
      var load := CallGraphEntry(loc, loc.(source := "b.js"), true);
      var call2 := CallGraphEntry(loc.(source := "b.js"), loc, false);
      NodeProfTransform([call1, load, call2]) == [call1, call2]
  {
    var loc := SourceLocation(Position(0, 0), Position(0, 5), "a.js");
    var call1 := CallGraphEntry(loc, loc, false);
    var load := CallGraphEntry(loc, loc.(source := "b.js"), true);
    var call2 := CallGraphEntry(loc.(source := "b.js"), loc, false);
    assert [call1, load, call2][1..] == [load, call2];
    assert [load, call2][1..] == [call2];
    assert FilterCalls([call2]) == [call2] + FilterCalls([]);
    assert FilterCalls([load, call2]) == FilterCalls([call2]);
    assert FilterCalls([call1, load, call2]) == [call1] + FilterCalls([load, call2]);
  }
}
