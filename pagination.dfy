/** The day-5 pagination endpoint: a window of a list of names, given by an
    offset and a limit, optionally cut into chunks of a given size. */
module Pagination {
  import opened Wrappers
  import opened Ints

  /** The query parameters; each may be absent. */
  datatype Query = Query(offset: Option<usize>, limit: Option<usize>, split: Option<usize>)

  /** The response before it is formatted: a list, or a list of chunks. */
  datatype Page = Flat(names: seq<string>) | Chunked(chunks: seq<seq<string>>)

  /** `names.iter().skip(offset).take(limit)`. */
  function Window(names: seq<string>, offset: nat, limit: nat): (w: seq<string>)
    ensures |w| == if offset >= |names| then 0 else if limit < |names| - offset then limit else |names| - offset
    ensures forall i :: 0 <= i < |w| ==> w[i] == names[offset + i]
  {
    var rest := if offset >= |names| then [] else names[offset..];
    if limit < |rest| then rest[..limit] else rest
  }

  /** `.chunks(size)`: consecutive pieces of `size` elements, the last one
      possibly shorter. */
  function Chunks<T>(s: seq<T>, size: nat): (cs: seq<seq<T>>)
    requires size > 0
    decreases |s|
  {
    if |s| <= size then (if s == [] then [] else [s])
    else [s[..size]] + Chunks(s[size..], size)
  }

  function Concat<T>(cs: seq<seq<T>>): seq<T> {
    if cs == [] then [] else cs[0] + Concat(cs[1..])
  }

  /** Putting the chunks back together gives the list that was cut. */
  lemma {:induction false} ConcatChunks<T>(s: seq<T>, size: nat)
    requires size > 0
    ensures Concat(Chunks(s, size)) == s
    decreases |s|
  {
    if |s| > size {
      ConcatChunks(s[size..], size);
      var cs := Chunks(s, size);
      assert cs[1..] == Chunks(s[size..], size);
      assert s[..size] + s[size..] == s;
    } else if s != [] {
      assert Concat(Chunks(s, size)[1..]) == [];
      assert s + [] == s;
    }
  }

  /** Every chunk holds `size` elements except the last, which holds between
      one and `size`; so there are just enough chunks to hold the list. */
  lemma {:induction false} ChunkSizes<T>(s: seq<T>, size: nat)
    requires size > 0
    ensures s == [] <==> Chunks(s, size) == []
    ensures s != [] ==> (|Chunks(s, size)| - 1) * size < |s| <= |Chunks(s, size)| * size
    ensures forall i :: 0 <= i < |Chunks(s, size)| - 1 ==> |Chunks(s, size)[i]| == size
    ensures s != [] ==> 0 < |Chunks(s, size)[|Chunks(s, size)| - 1]| <= size
    decreases |s|
  {
    if |s| > size {
      ChunkSizes(s[size..], size);
      var cs := Chunks(s, size);
      var tail := Chunks(s[size..], size);
      assert cs == [s[..size]] + tail;
      assert |cs| * size == |tail| * size + size;
      assert (|cs| - 1) * size == (|tail| - 1) * size + size;
      forall i | 0 <= i < |cs| - 1 ensures |cs[i]| == size {
        if i > 0 {
          assert cs[i] == tail[i - 1];
        }
      }
      assert cs[|cs| - 1] == tail[|tail| - 1];
    }
  }

  /** `paginate_list`: the offset defaults to 0, the limit to the number of
      names; with a split the window is cut into chunks, and a split of 0
      panics in `chunks`. */
  function Paginate(q: Query, names: seq<string>): (r: Outcome<Page>)
    ensures r.Panic? <==> q.split == Some(0)
  {
    var offset := match q.offset case Some(o) => o case None => 0;
    var limit := match q.limit case Some(l) => l case None => |names|;
    var w := Window(names, offset, limit);
    match q.split
    case Some(size) => if size == 0 then Panic else Done(Chunked(Chunks(w, size)))
    case None => Done(Flat(w))
  }

  /** Without parameters, the whole list comes back unchanged. */
  lemma DefaultsKeepAll(names: seq<string>)
    ensures Paginate(Query(None, None, None), names) == Done(Flat(names))
  {
    assert names[0..] == names;
  }

  /** Splitting never changes which names are returned, nor their order. */
  lemma SplitKeepsNames(q: Query, names: seq<string>)
    requires q.split.Some? && q.split.value > 0
    ensures Paginate(q, names).Done? && Paginate(q, names).value.Chunked?
    ensures Paginate(q.(split := None), names).Done? && Paginate(q.(split := None), names).value.Flat?
    ensures Concat(Paginate(q, names).value.chunks) == Paginate(q.(split := None), names).value.names
  {
    var w := Paginate(q.(split := None), names).value.names;
    ConcatChunks(w, q.split.value);
  }
}
