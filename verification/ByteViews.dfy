/** Shared buffers: a view of part of a reference-counted buffer, and its split in two. */
module ByteViews {
  import opened Base

  datatype View = View(buf: Option<Bytes>, offset: nat, len: nat)

  const EmptyView: View := View(None, 0, 0)

  /** The bytes a view shows. */
  function Contents(v: View): Outcome<Bytes> {
    if v.buf.None? then Done([])
    else if v.offset + v.len > |v.buf.value| then Panic
    else Done(v.buf.value[v.offset..v.offset + v.len])
  }

  predicate Valid(v: View) { if v.buf.None? then v.len == 0 else v.offset + v.len <= |v.buf.value| }

  function Split(v: View, ix: nat): Outcome<(View, View)> {
    var bytes :- Contents(v);
    if ix == |bytes| then Done((v, EmptyView))
    else if v.buf.None? || ix >= v.len then Panic
    else Done((View(v.buf, v.offset, ix), View(v.buf, v.offset + ix, v.len - ix)))
  }

  /** Splitting aborts exactly beyond the end of the view, and otherwise cuts its contents in
      two: the halves show the bytes before and after the cut and are views again. */
  lemma SplitExact(v: View, ix: nat)
    requires Valid(v)
    ensures Contents(v).Done? && |Contents(v).value| == v.len
    ensures Split(v, ix).Done? <==> ix <= v.len
    ensures Split(v, ix).Done? ==>
      var (a, b) := Split(v, ix).value;
      && Valid(a) && Valid(b)
      && Contents(a) == Done(Contents(v).value[..ix]) && Contents(b) == Done(Contents(v).value[ix..])
  {
    var all := Contents(v).value;
    if ix < v.len {
      var b := v.buf.value;
      assert all[..ix] == b[v.offset..v.offset + ix];
      assert all[ix..] == b[v.offset + ix..v.offset + v.len];
    } else if ix == v.len {
      assert all[..ix] == all && all[ix..] == [];
    }
  }
}
