/** Planning a multipart flush: what to keep, copy, download, upload and cancel. */
module Planning {
  import opened Untreated
  import opened PlanTypes

  // ---- the untreated areas of one cell ----

  /** The areas still to be handed out all begin at or after `at`. */
  ghost predicate From(list: seq<Part>, at: int) {
    Ordered(list) && forall k :: 0 <= k < |list| ==> at <= list[k].start
  }

  ghost predicate Within(list: seq<Part>, lo: int, hi: int) {
    Ordered(list) && forall k :: 0 <= k < |list| ==> lo <= list[k].start && list[k].End() <= hi
  }

  lemma HasHead(list: seq<Part>, i: int)
    requires list != []
    ensures Has(list, i) <==> PartHas(list[0], i) || Has(list[1..], i)
  {
    HasConcat([list[0]], list[1..], i);
    assert [list[0]] + list[1..] == list;
    HasOne(list[0], i);
  }

  lemma HasAppend(list: seq<Part>, p: Part, i: int)
    ensures Has(list + [p], i) <==> Has(list, i) || PartHas(p, i)
  {
    HasConcat(list, [p], i);
    HasOne(p, i);
  }

  /** What is taken and what is left are together what there was; the cell's bytes are all taken. */
  ghost predicate Taken(before: seq<Part>, taken: seq<Part>, rest: seq<Part>, lo: int, hi: int) {
    && Within(taken, lo, hi) && Ordered(rest)
    && (forall i :: Has(before, i) <==> Has(taken, i) || Has(rest, i))
    && (forall j, k :: 0 <= j < |taken| && 0 <= k < |rest| ==> taken[j].End() <= rest[k].start)
    && (forall k :: 0 <= k < |rest| ==> lo <= rest[k].start)
  }

  lemma TakeWhole(before: seq<Part>, taken: seq<Part>, rest: seq<Part>, lo: int, hi: int)
    requires Taken(before, taken, rest, lo, hi) && rest != [] && rest[0].End() <= hi
    ensures Taken(before, taken + [Part(rest[0].start, rest[0].size, 0)], rest[1..], lo, hi)
  {
    var p := Part(rest[0].start, rest[0].size, 0);
    forall i ensures Has(before, i) <==> Has(taken + [p], i) || Has(rest[1..], i) {
      HasHead(rest, i);
      HasAppend(taken, p, i);
    }
  }

  lemma TakeFront(before: seq<Part>, taken: seq<Part>, rest: seq<Part>, lo: int, hi: int)
    requires Taken(before, taken, rest, lo, hi) && rest != [] && rest[0].start < hi < rest[0].End()
    ensures Taken(before, taken + [Part(rest[0].start, hi - rest[0].start, 0)],
                  rest[0 := Part(hi, rest[0].End() - hi, rest[0].tag)], lo, hi)
  {
    var p, q := Part(rest[0].start, hi - rest[0].start, 0), Part(hi, rest[0].End() - hi, rest[0].tag);
    var left := rest[0 := q];
    assert left[1..] == rest[1..];
    forall i ensures Has(before, i) <==> Has(taken + [p], i) || Has(left, i) {
      HasHead(rest, i);
      HasHead(left, i);
      HasAppend(taken, p, i);
    }
  }

  /** Moves the areas overlapping [cur_start, cur_start+cur_size) out of the duplicated list. */
  method TakeUntreated(dup0: seq<Part>, iter0: int, cur_start: int, cur_size: int)
    returns (dup: seq<Part>, iter: int, cur_untreated: seq<Part>)
    requires 0 <= iter0 <= |dup0| && From(dup0[iter0..], cur_start) && 0 <= cur_start && 0 < cur_size
    ensures 0 <= iter <= |dup| && From(dup[iter..], cur_start + cur_size)
    ensures Within(cur_untreated, cur_start, cur_start + cur_size)
    ensures forall i :: Has(dup0[iter0..], i) <==> Has(cur_untreated, i) || Has(dup[iter..], i)
  {
    dup, iter, cur_untreated := dup0, iter0, [];
    ghost var before, end := dup0[iter0..], cur_start + cur_size;
    while iter < |dup|
      invariant 0 <= iter <= |dup|
      invariant Taken(before, cur_untreated, dup[iter..], cur_start, end)
      decreases |dup| - iter, if iter < |dup| then end - dup[iter].start else 0
    {
      ghost var rest := dup[iter..];
      assert rest[0] == dup[iter];
      var p := dup[iter];
      if p.start < cur_start + cur_size && cur_start < p.End() {
        var tmp_start, tmp_size := p.start, p.size;
        if p.start < cur_start {
          tmp_start, tmp_size := cur_start, p.size - (cur_start - p.start);
        }
        if tmp_start + tmp_size <= cur_start + cur_size {
          TakeWhole(before, cur_untreated, rest, cur_start, end);
          cur_untreated := cur_untreated + [Part(tmp_start, tmp_size, 0)];
          dup := dup[..iter] + dup[iter + 1..];
          assert dup[iter..] == rest[1..];
        } else {
          TakeFront(before, cur_untreated, rest, cur_start, end);
          tmp_size := cur_start + cur_size - tmp_start;
          cur_untreated := cur_untreated + [Part(tmp_start, tmp_size, 0)];
          dup := dup[iter := Part(tmp_start + tmp_size, p.End() - (cur_start + cur_size), p.tag)];
          assert dup[iter..] == rest[0 := Part(end, rest[0].End() - end, rest[0].tag)];
        }
      } else if cur_start + cur_size - 1 < p.start {
        break;
      } else {
        iter := iter + 1;
      }
    }
    assert iter < |dup| ==> dup[iter..][0] == dup[iter];
  }

  // ---- the uploaded part of one cell ----

  /** Looks for the uploaded part beginning in the cell; a second one is an error. */
  method FindUploaded(upload_list: seq<FilePart>, iter0: int, cur_start: int, cur_size: int)
    returns (ok: bool, iter: int, overlap: int)
    requires 0 <= iter0 <= |upload_list| && 0 < cur_size
    requires forall k :: iter0 <= k < |upload_list| ==> cur_start <= upload_list[k].startpos && 0 < upload_list[k].size
    requires forall j, k :: iter0 <= j < k < |upload_list| ==> upload_list[j].End() <= upload_list[k].startpos
    ensures !ok ==> iter0 + 1 < |upload_list| && upload_list[iter0 + 1].startpos < cur_start + cur_size
    ensures ok ==> iter0 <= iter <= |upload_list|
    ensures ok ==> forall k :: iter <= k < |upload_list| ==> cur_start + cur_size <= upload_list[k].startpos
    ensures ok ==> if overlap == -1 then iter == iter0
      else overlap == iter0 && iter == iter0 + 1 && upload_list[iter0].startpos < cur_start + cur_size
  {
    ok, iter, overlap := true, iter0, -1;
    while iter < |upload_list|
      invariant iter0 <= iter <= |upload_list| && ok
      invariant if overlap == -1 then iter == iter0
        else overlap == iter0 && iter == iter0 + 1 && upload_list[iter0].startpos < cur_start + cur_size
    {
      if cur_start < upload_list[iter].End() && upload_list[iter].startpos < cur_start + cur_size {
        if overlap != -1 { return false, iter, overlap; }
        overlap := iter;
      } else if cur_start + cur_size - 1 < upload_list[iter].startpos {
        break;
      }
      iter := iter + 1;
    }
  }

  // ---- a cell with untreated bytes that is not uploaded ----

  /** Everything in [lo, hi) outside `areas` is in `download`, and nothing else is. */
  ghost predicate Complement(download: seq<MpPart>, areas: seq<Part>, lo: int, hi: int) {
    forall i :: InMp(download, i) <==> lo <= i < hi && !Has(areas, i)
  }

  lemma ComplementNext(download: seq<MpPart>, areas: seq<Part>, n: int, lo: int, at: int)
    requires 0 <= n < |areas| && Ordered(areas) && lo <= at <= areas[n].start
    requires Complement(download, areas[..n], lo, at) && forall k :: 0 <= k < n ==> areas[k].End() <= at
    ensures Complement(if at < areas[n].start then download + [MpPart(at, areas[n].start - at, 0)] else download,
                       areas[..n + 1], lo, areas[n].End())
    ensures n == 0 && lo == at ==> Complement(download, areas[..1], areas[0].start, areas[0].End())
  {
    var gap := MpPart(at, areas[n].start - at, 0);
    var longer := if at < areas[n].start then download + [gap] else download;
    assert areas[..n + 1] == areas[..n] + [areas[n]];
    forall i ensures InMp(longer, i) <==> lo <= i < areas[n].End() && !Has(areas[..n + 1], i) {
      InMpConcat(download, [gap], i);
      InMpOne(gap, i);
      HasAppend(areas[..n], areas[n], i);
      PrefixBefore(areas, n, at, i);
    }
    if n == 0 && lo == at {
      forall i ensures InMp(download, i) <==> areas[0].start <= i < areas[0].End() && !Has(areas[..1], i) {
        HasAppend(areas[..0], areas[0], i);
        assert areas[..0] == [];
      }
    }
  }

  lemma PrefixBefore(areas: seq<Part>, n: int, at: int, i: int)
    requires 0 <= n <= |areas| && forall k :: 0 <= k < n ==> areas[k].End() <= at
    ensures Has(areas[..n], i) ==> i < at
  {
    if Has(areas[..n], i) {
      var k :| 0 <= k < n && PartHas(areas[..n][k], i);
      assert areas[k].End() <= at;
    }
  }

  /** The rest of the cell after its last untreated area. */
  lemma ComplementEnd(download: seq<MpPart>, areas: seq<Part>, lo: int, at: int, hi: int)
    requires Complement(download, areas, lo, at) && lo <= at <= hi && forall k :: 0 <= k < |areas| ==> areas[k].End() <= at
    ensures Complement(if at < hi then download + [MpPart(at, hi - at, 0)] else download, areas, lo, hi)
  {
    var rest := MpPart(at, hi - at, 0);
    var longer := if at < hi then download + [rest] else download;
    forall i ensures InMp(longer, i) <==> lo <= i < hi && !Has(areas, i) {
      InMpConcat(download, [rest], i);
      InMpOne(rest, i);
      PrefixBefore(areas, |areas|, at, i);
      assert areas[..|areas|] == areas;
    }
  }

  /** Whether the gap in front of a cell's first untreated area may join the copy part before it. */
  predicate Unifies(to_copy: seq<MpPart>, use_copy: bool, cur_start: int, cur_size: int, first: int) {
    && use_copy && to_copy != []
    && to_copy[|to_copy| - 1].End() == cur_start
    && to_copy[|to_copy| - 1].size + (first - cur_start) <= FIVE_GB
    && cur_start + cur_size - first >= MIN_MULTIPART_SIZE
  }

  /** Splits a cell that has untreated areas and is not uploaded: its other bytes are downloaded,
      except that a leading gap is given to the copy part before it when that is allowed. */
  method SplitCell(areas: seq<Part>, cur_start: int, cur_size: int, use_copy: bool, to_copy0: seq<MpPart>)
    returns (to_copy: seq<MpPart>, download: seq<MpPart>, changed_start: int, changed_size: int)
    requires areas != [] && Within(areas, cur_start, cur_start + cur_size)
    ensures if areas[0].start > cur_start && Unifies(to_copy0, use_copy, cur_start, cur_size, areas[0].start)
      then changed_start == areas[0].start
        && to_copy == to_copy0[|to_copy0| - 1 := to_copy0[|to_copy0| - 1].(size := to_copy0[|to_copy0| - 1].size + (areas[0].start - cur_start))]
      else changed_start == cur_start && to_copy == to_copy0
    ensures changed_start + changed_size == cur_start + cur_size && 0 < changed_size
    ensures Complement(download, areas, changed_start, cur_start + cur_size)
  {
    to_copy, download := to_copy0, [];
    var tmp_start, tmp_size := cur_start, cur_size;
    changed_start, changed_size := cur_start, cur_size;
    var first_area, k := true, 0;
    while k < |areas|
      invariant 0 <= k <= |areas| && (first_area <==> k == 0)
      invariant tmp_start == (if k == 0 then cur_start else areas[k - 1].End()) && tmp_start + tmp_size == cur_start + cur_size
      invariant changed_start + changed_size == cur_start + cur_size && changed_start <= areas[0].start
      invariant if k > 0 && areas[0].start > cur_start && Unifies(to_copy0, use_copy, cur_start, cur_size, areas[0].start)
        then changed_start == areas[0].start
          && to_copy == to_copy0[|to_copy0| - 1 := to_copy0[|to_copy0| - 1].(size := to_copy0[|to_copy0| - 1].size + (areas[0].start - cur_start))]
        else changed_start == cur_start && to_copy == to_copy0
      invariant Complement(download, areas[..k], changed_start, tmp_start)
    {
      var area := areas[k];
      ComplementNext(download, areas, k, changed_start, tmp_start);
      if tmp_start < area.start {
        var include_prev_copy_part := false;
        if first_area && use_copy && to_copy != [] {
          var last := to_copy[|to_copy| - 1];
          if last.End() == tmp_start && last.size + (area.start - tmp_start) <= FIVE_GB
             && tmp_start + tmp_size - area.start >= MIN_MULTIPART_SIZE {
            to_copy := to_copy[|to_copy| - 1 := last.(size := last.size + (area.start - tmp_start))];
            changed_size := changed_size - (area.start - changed_start);
            changed_start := area.start;
            include_prev_copy_part := true;
          }
        }
        if !include_prev_copy_part {
          download := download + [MpPart(tmp_start, area.start - tmp_start, 0)];
        }
      }
      tmp_size := tmp_start + tmp_size - area.End();
      tmp_start := area.End();
      first_area := false;
      k := k + 1;
    }
    assert areas[..k] == areas;
    ComplementEnd(download, areas, changed_start, tmp_start, cur_start + cur_size);
    if 0 < tmp_size {
      download := download + [MpPart(tmp_start, tmp_size, 0)];
    }
  }
}
