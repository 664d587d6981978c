/** The datapoint store as it is kept: one byte image updated slot by slot, and the baseline
    of on-change reports. */
module DpStore {
  import opened Bytes
  import opened Datapoints
  import opened DpReports
  import opened DpMeaning

  class Store {
    const table: seq<Desc>
    const fields: Fields
    const codec: Codec
    const img: array<u8>
    const last: array<u8>

    ghost predicate Valid() {
      && TableOk(table, img.Length) && FieldsOk(table, fields) && CodecOk(codec)
      && last.Length == img.Length && img != last
    }

    constructor (table: seq<Desc>, fields: Fields, codec: Codec, size: nat)
      requires TableOk(table, size) && FieldsOk(table, fields) && CodecOk(codec)
      ensures Valid() && fresh(img) && fresh(last) && img[..] == last[..] == seq(size, _ => 0)
      ensures this.table == table && this.fields == fields && this.codec == codec
    {
      this.table, this.fields, this.codec := table, fields, codec;
      img := new u8[size](_ => 0);
      last := new u8[size](_ => 0);
      new;
      assert img[..] == seq(size, _ => 0) && last[..] == seq(size, _ => 0);
    }

    method FindName(name: string) returns (k: nat)
      ensures k == Find(table, name, 0)
    {
      k := 0;
      while k < |table| && table[k].name != name
        invariant k <= |table| && Find(table, name, 0) == Find(table, name, k)
      {
        k := k + 1;
      }
    }

    /** What the item at hand does; the name is looked up first. */
    method Judge(x: Item) returns (o: Outcome)
      ensures o == Judged(table, codec, x)
    {
      var k := FindName(x.key);
      if k == |table| { return Fails(UNKNOWN_NAME); }
      if table[k].access != RW { return Fails(READ_ONLY); }
      var p := ParseValue(codec, table[k], x.value);
      o := if p.Bytes? then Writes(k, p.d) else Fails(p.e);
    }

    /** Validates the batch on a private copy. */
    method Stage(batch: seq<Item>) returns (tmp: array<u8>, errors: seq<(string, Error)>)
      requires Valid()
      ensures fresh(tmp) && tmp[..] == Staged(table, codec, batch, img[..])
      ensures errors == Errors(table, codec, batch)
    {
      hide TableOk, Judged, Find, FieldsOk;
      tmp := new u8[img.Length](i requires 0 <= i < img.Length reads img => img[i]);
      errors := [];
      assert tmp[..] == img[..];
      var n := 0;
      while n < |batch|
        invariant n <= |batch| && tmp[..] == Staged(table, codec, batch[..n], img[..])
        invariant errors == Errors(table, codec, batch[..n])
      {
        assert batch[..n + 1][..n] == batch[..n];
        JudgedFits(table, codec, batch[n]);
        var o := Judge(batch[n]);
        if o.Writes? {
          SlotExists(table, img[..], o.k);
          Bytes.Store(tmp, table[o.k].off, o.d);
        } else {
          errors := errors + [(batch[n].key, o.e)];
        }
        n := n + 1;
      }
      assert batch[..|batch|] == batch;
    }

    /** Copies the named slots from the copy, one after the other. */
    method Commit(batch: seq<Item>, tmp: array<u8>)
      requires Valid() && tmp.Length == img.Length && tmp != img
      modifies img
      ensures img[..] == Committed(table, batch, tmp[..], old(img[..]), |batch|)
    {
      hide TableOk, Find, FieldsOk;
      var n := 0;
      while n < |batch|
        invariant n <= |batch| && img[..] == Committed(table, batch, tmp[..], old(img[..]), n)
      {
        var k := FindName(batch[n].key);
        if k < |table| && table[k].access == RW {
          SlotSize(table, img[..], k);
          SlotSize(table, tmp[..], k);
          assert tmp[table[k].off..table[k].End()] == SlotOf(tmp[..], table[k]);
          Bytes.Store(img, table[k].off, tmp[table[k].off..table[k].End()]);
        }
        n := n + 1;
      }
    }

    /** A batch is written as a whole or not at all: exactly the slots it names change, to
        the values it gives, and only if every item can be written and the result meets the
        cross-field constraints. */
    method WriteBatch(batch: seq<Item>) returns (ok: bool, errors: seq<(string, Error)>)
      requires Valid()
      modifies img
      ensures var m := Staged(table, codec, batch, old(img[..])); var v := Constraints(table, fields, codec, m);
        && (ok <==> (Errors(table, codec, batch) == [] && v.Fine?))
        && errors == (if Errors(table, codec, batch) == [] && v.Violated? && v.k < |table| then
                        [(table[v.k].name, CONSTRAINT)]
                      else Errors(table, codec, batch))
        && img[..] == (if ok then m else old(img[..]))
      ensures if ok then IsStaged(table, codec, batch, old(img[..]), img[..]) else img[..] == old(img[..])
      ensures var m := Staged(table, codec, batch, old(img[..]));
              var writable := forall i | 0 <= i < |batch| :: Writable(table, batch[i]);
        && (ok <==> writable && Sensible(table, fields, codec, m))
        && (!writable ==> Explain(table, batch, errors))
        && (writable && !ok ==> exists k ::
              0 <= k < |table| && Blamed(table, fields, codec, m, k) && errors == [(table[k].name, CONSTRAINT)])
      ensures ok ==> Sensible(table, fields, codec, img[..])
    {
      hide TableOk, Find, FieldsOk, Constraints, Staged, IsStaged, Errors, Sensible, Blamed, Writable, Explain;
      var tmp;
      tmp, errors := Stage(batch);
      NoErrorsMeans(table, codec, batch, img.Length);
      ErrorsExplain(table, codec, batch, img.Length);
      ConstraintsMean(table, fields, codec, tmp[..]);
      ViolationBlames(table, fields, codec, tmp[..]);
      if errors != [] { return false, errors; }
      var v := Constraints(table, fields, codec, tmp[..]);
      if v.Violated? {
        if v.k < |table| { errors := [(table[v.k].name, CONSTRAINT)]; }
        return false, errors;
      }
      CommitIsStaged(table, codec, batch, img[..]);
      StagedIs(table, codec, batch, img[..]);
      Commit(batch, tmp);
      return true, [];
    }

    method ReportFull() returns (out: seq<Entry>)
      requires Valid()
      modifies last
      ensures out == Full(table, img[..], |table|) && last[..] == img[..]
    {
      hide TableOk, FieldsOk;
      out := Listing();
      ghost var snap := img[..];
      forall i | 0 <= i < img.Length {
        last[i] := img[i];
      }
      assert last[..] == img[..] == snap;
    }

    /** The report for an additional consumer: the baseline stays. */
    method ReportFullNoReset() returns (out: seq<Entry>)
      requires Valid()
      ensures out == Full(table, img[..], |table|)
    {
      out := Listing();
    }

    method Listing() returns (out: seq<Entry>)
      requires Valid()
      ensures out == Full(table, img[..], |table|)
    {
      hide TableOk, FieldsOk;
      out := [];
      var n := 0;
      while n < |table|
        invariant n <= |table| && out == Full(table, img[..], n)
      {
        if Reported(table[n]) {
          SlotExists(table, img[..], n);
          out := out + [Entry(n, img[..][table[n].off..table[n].End()])];
        }
        n := n + 1;
      }
    }

    method ReportChanges() returns (out: seq<Entry>)
      requires Valid()
      modifies last
      ensures (out, last[..]) == Changes(table, codec, img[..], old(last[..]), |table|)
    {
      hide TableOk, FieldsOk, Moved, Eligible;
      out := [];
      var n := 0;
      while n < |table|
        invariant n <= |table| && (out, last[..]) == Changes(table, codec, img[..], old(last[..]), n)
      {
        var d := table[n];
        SlotSize(table, img[..], n);
        SlotSize(table, last[..], n);
        var cur := img[..][d.off..d.End()];
        if Eligible(d) && Moved(codec, d, cur, last[..][d.off..d.End()]) {
          out := out + [Entry(n, cur)];
          Bytes.Store(last, d.off, cur);
        }
        n := n + 1;
      }
    }
  }
}
