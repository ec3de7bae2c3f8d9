/**
 * The `mappings` text of Source Map Revision 3 written out from its parts, and
 * the proof that `_parseMap`'s reading of such a text (`SourceMap.Segments`)
 * yields exactly the entries the parts describe.
 */
module SourceMapRoundTrip {
  import opened JsRuntime
  import opened SourceMap

  /** One piece of a `mappings` text: a ';' line break, or a segment of delta fields. */
  datatype Item = LineBreak | Fields(deltas: seq<int>)

  /** A segment has 1, 4 or 5 fields, each below 2^29 in magnitude. */
  predicate ItemOk(item: Item)
  {
    item.LineBreak? ||
    ((|item.deltas| == 1 || |item.deltas| == 4 || |item.deltas| == 5) &&
     forall k :: 0 <= k < |item.deltas| ==> -0x2000_0000 < item.deltas[k] < 0x2000_0000)
  }

  predicate ItemsOk(items: seq<Item>)
  {
    forall i :: 0 <= i < |items| ==> ItemOk(items[i])
  }

  /** The Base64 VLQ text of each field, one after the other. */
  function EncodeFields(ds: seq<int>): string
  {
    if ds == [] then [] else EncodeVlq(ds[0]) + EncodeFields(ds[1..])
  }

  /** The ',' that goes between two segments (none before a line break or at the end). */
  function Comma(items: seq<Item>): string
  {
    if items != [] && items[0].Fields? then "," else ""
  }

  /** The `mappings` text of `items`. */
  function Serialize(items: seq<Item>): string
  {
    if items == [] then []
    else match items[0]
      case LineBreak => ";" + Serialize(items[1..])
      case Fields(ds) => EncodeFields(ds) + Comma(items[1..]) + Serialize(items[1..])
  }

  /**
   * The running values after segment fields `ds`: the column delta, and with four
   * or more fields the source index, source line and source column deltas and
   * the name delta (0 when absent).
   */
  function Advance(cur: Cursor, ds: seq<int>): Cursor
  {
    if ds == [] then cur
    else if |ds| < 4 then cur.(column := cur.column + ds[0])
    else Cursor(cur.line, cur.column + ds[0], cur.sourceIndex + ds[1], cur.sourceLine + ds[2],
                cur.sourceColumn + ds[3], cur.nameIndex + (if |ds| >= 5 then ds[4] else 0))
  }

  /**
   * The entries `items` describe from running values `cur`: a line break moves to
   * column 0 of the next line, a segment advances the running values, and one of
   * four or more fields gives one entry.
   */
  function Expected(items: seq<Item>, cur: Cursor): seq<Entry>
  {
    if items == [] then []
    else match items[0]
      case LineBreak => Expected(items[1..], cur.(line := cur.line + 1, column := 0))
      case Fields(ds) =>
        var next := Advance(cur, ds);
        (if |ds| >= 4 then [EntryOf(next)] else []) + Expected(items[1..], next)
  }

  /** The parts of a text: `text[pos..]` starting with `a` then `rest`. */
  lemma Split(text: string, pos: int, a: string, rest: string)
    requires 0 <= pos <= |text| && text[pos..] == a + rest
    ensures pos + |a| <= |text| && text[pos..pos + |a|] == a && text[pos + |a|..] == rest
  {
    assert text[pos..][..|a|] == a;
    assert text[pos..][|a|..] == rest;
  }

  /** No Base64 character is a separator. */
  lemma Base64CharNotSeparator(i: int)
    requires 0 <= i < 64
    ensures Base64Char(i) != ',' && Base64Char(i) != ';'
  {
  }

  /** An encoded value is not empty and does not start with a separator. */
  lemma EncodeVlqStart(v: int)
    ensures EncodeVlq(v) != [] && EncodeVlq(v)[0] != ',' && EncodeVlq(v)[0] != ';'
  {
    var ds := EncodeDigits(VlqNumber(v));
    Base64CharNotSeparator(ds[0]);
  }

  /** A text of a non-empty item list is not empty and does not start with ','; a segment's does not start with ';' either. */
  lemma SerializeStart(items: seq<Item>)
    requires items != [] && ItemOk(items[0])
    ensures Serialize(items) != [] && Serialize(items)[0] != ','
    ensures items[0].Fields? ==> Serialize(items)[0] != ';'
  {
    if items[0].Fields? {
      var ds := items[0].deltas;
      EncodeVlqStart(ds[0]);
      assert EncodeFields(ds) == EncodeVlq(ds[0]) + EncodeFields(ds[1..]);
    }
  }

  /** Decoding a field at `pos`: its value, and the rest of the text right after it. */
  lemma FieldAt(text: string, pos: int, v: int, rest: string)
    requires -0x2000_0000 < v < 0x2000_0000
    requires 0 <= pos <= |text| && text[pos..] == EncodeVlq(v) + rest
    ensures DecodeAt(text, pos) == (v, pos + |EncodeVlq(v)|)
    ensures text[pos + |EncodeVlq(v)|..] == rest
  {
    Split(text, pos, EncodeVlq(v), rest);
    DecodeEncoded(text, pos, v);
  }

  /** At the end of the text the loop stops. */
  lemma SegmentsAtEnd(text: string, pos: int, cur: Cursor)
    requires pos >= |text|
    ensures Segments(text, pos, cur, true) == []
  {
  }

  /** At a character that is no separator the loop reads a segment straight away. */
  lemma SegmentsAtSegment(text: string, pos: int, cur: Cursor)
    requires 0 <= pos < |text| && text[pos] != ',' && text[pos] != ';'
    ensures Segments(text, pos, cur, true) == Segment(text, pos, cur, true)
  {
  }

  /** A ';' not followed by ',' is one line step of the loop. */
  lemma SegmentsAtLineBreak(text: string, pos: int, cur: Cursor)
    requires 0 <= pos < |text| && text[pos] == ';' && (pos + 1 == |text| || text[pos + 1] != ',')
    ensures Segments(text, pos, cur, true) == Segments(text, pos + 1, cur.(line := cur.line + 1, column := 0), true)
  {
    assert SkipLines(text, pos, cur) == SkipLines(text, pos + 1, cur.(line := cur.line + 1, column := 0));
  }

  lemma ItemsOkRest(items: seq<Item>)
    requires items != [] && ItemsOk(items)
    ensures ItemOk(items[0]) && ItemsOk(items[1..])
  {
    forall i | 0 <= i < |items| - 1
      ensures ItemOk(items[1..][i])
    {
      assert items[1..][i] == items[i + 1];
    }
  }

  /** The values `_decodeVLQ` returns when called `n` times from `pos`, and where it leaves the iterator. */
  function DecodeRun(text: string, pos: int, n: nat): (r: (seq<int>, int))
    ensures |r.0| == n
    decreases n
  {
    if n == 0 then ([], pos)
    else
      var (v, p) := DecodeAt(text, pos);
      var (vs, q) := DecodeRun(text, p, n - 1);
      ([v] + vs, q)
  }

  /**
   * The segment at `pos` reads as the fields `ds`: it starts at a character that
   * is no separator, a separator or the end of the text follows its last field,
   * and the loop goes past the column field exactly when four or five fields
   * follow and reads a name field exactly when there are five.
   */
  predicate ReadsSegment(text: string, pos: int, ds: seq<int>)
  {
    var (vs, end) := DecodeRun(text, pos, |ds|);
    0 <= pos < |text| && text[pos] != ',' && text[pos] != ';' &&
    vs == ds && SegmentEnds(text, end, true) &&
    (|ds| == 1 ||
     ((|ds| == 4 || |ds| == 5) && !SegmentEnds(text, DecodeRun(text, pos, 1).1, true) &&
      (|ds| == 5 ==> !SegmentEnds(text, DecodeRun(text, pos, 4).1, true))))
  }

  /**
   * What the parsing loop reads from `pos` on, in its own terms: a ';' with no ','
   * after it for a line break, a segment for a list of fields, a ',' between two
   * segments, and the end of the text after the last item.
   */
  predicate Reads(text: string, pos: int, items: seq<Item>)
    decreases |items|, 1
  {
    if items == [] then pos >= |text|
    else match items[0]
      case LineBreak =>
        ElementAt(text, pos) == Some(';') && ElementAt(text, pos + 1) != Some(',') && Reads(text, pos + 1, items[1..])
      case Fields(ds) =>
        ReadsSegment(text, pos, ds) && ReadsAfter(text, DecodeRun(text, pos, |ds|).1, items[1..])
  }

  /** Right after a segment: the ',' before a following segment, then `items`. */
  predicate ReadsAfter(text: string, pos: int, items: seq<Item>)
    decreases |items|, 2
  {
    if Comma(items) == "," then ElementAt(text, pos) == Some(',') && Reads(text, pos + 1, items)
    else Reads(text, pos, items)
  }

  /** Field `k` of a run is what `_decodeVLQ` reads where the first `k` fields end. */
  lemma {:induction false} RunAt(text: string, pos: int, n: nat, k: nat)
    requires k < n
    ensures DecodeAt(text, DecodeRun(text, pos, k).1) == (DecodeRun(text, pos, n).0[k], DecodeRun(text, pos, k + 1).1)
    decreases k
  {
    var p := DecodeAt(text, pos).1;
    if k > 0 {
      RunAt(text, p, n - 1, k - 1);
    }
  }

  /** A one-field segment moves the column; the loop goes on where the field ends. */
  lemma ColumnOfRead(text: string, pos: int, ds: seq<int>, cur: Cursor, next: Cursor)
    requires ReadsSegment(text, pos, ds) && |ds| == 1 && next == Advance(cur, ds)
    ensures Segments(text, pos, cur, true) == Segments(text, DecodeRun(text, pos, 1).1, next, true)
  {
    RunAt(text, pos, 1, 0);
    SegmentsAtSegment(text, pos, cur);
    SegmentStops(text, pos, cur, ds[0], DecodeRun(text, pos, 1).1);
  }

  /** A segment of four or five fields pushes one entry; the loop goes on where the fields end. */
  lemma FieldsOfRead(text: string, pos: int, ds: seq<int>, cur: Cursor, next: Cursor)
    requires ReadsSegment(text, pos, ds) && |ds| >= 4 && next == Advance(cur, ds)
    ensures Segments(text, pos, cur, true) == [EntryOf(next)] + Segments(text, DecodeRun(text, pos, |ds|).1, next, true)
  {
    var p1, p2, p3, p4 := RunFour(text, pos, ds);
    var dn, p5 := NameOfRead(text, pos, ds, p4, next);
    AdvanceFields(cur, ds, dn);
    PushesOfRead(text, pos, cur, ds[0], p1, ds[1], p2, ds[2], p3, ds[3], p4, dn, p5, next);
  }

  /** Four or five fields move every running value by its delta. */
  lemma AdvanceFields(cur: Cursor, ds: seq<int>, dn: int)
    requires |ds| >= 4 && dn == if |ds| >= 5 then ds[4] else 0
    ensures Advance(cur, ds) == Cursor(cur.line, cur.column + ds[0], cur.sourceIndex + ds[1], cur.sourceLine + ds[2],
                                       cur.sourceColumn + ds[3], cur.nameIndex + dn)
  {
  }

  /** Four decoded fields and a name field push the entry for the advanced running values. */
  lemma PushesOfRead(text: string, pos: int, cur: Cursor, dc: int, p1: int, dsi: int, p2: int,
                     dsl: int, p3: int, dsc: int, p4: int, dn: int, p5: int, next: Cursor)
    requires 0 <= pos < |text| && text[pos] != ',' && text[pos] != ';'
    requires (dc, p1) == DecodeAt(text, pos) && !SegmentEnds(text, p1, true)
    requires (dsi, p2) == DecodeAt(text, p1) && (dsl, p3) == DecodeAt(text, p2) && (dsc, p4) == DecodeAt(text, p3)
    requires (dn, p5) == if IsSeparator(ElementAt(text, p4)) then (0, p4) else DecodeAt(text, p4)
    requires next == Cursor(cur.line, cur.column + dc, cur.sourceIndex + dsi, cur.sourceLine + dsl,
                            cur.sourceColumn + dsc, cur.nameIndex + dn)
    ensures Segments(text, pos, cur, true) == [EntryOf(next)] + Segments(text, p5, next, true)
  {
    SegmentsAtSegment(text, pos, cur);
    SegmentPushes(text, pos, cur, dc, p1, dsi, p2, dsl, p3, dsc, p4, dn, p5);
  }

  /** The first four fields of a read segment, one `_decodeVLQ` call each. */
  lemma RunFour(text: string, pos: int, ds: seq<int>) returns (p1: int, p2: int, p3: int, p4: int)
    requires ReadsSegment(text, pos, ds) && |ds| >= 4
    ensures pos <= |text| && !SegmentEnds(text, p1, true)
    ensures (ds[0], p1) == DecodeAt(text, pos) && (ds[1], p2) == DecodeAt(text, p1)
    ensures (ds[2], p3) == DecodeAt(text, p2) && (ds[3], p4) == DecodeAt(text, p3)
    ensures p4 == DecodeRun(text, pos, 4).1
  {
    var n := |ds|;
    p1, p2, p3, p4 := DecodeRun(text, pos, 1).1, DecodeRun(text, pos, 2).1, DecodeRun(text, pos, 3).1, DecodeRun(text, pos, 4).1;
    RunAt(text, pos, n, 0);
    RunAt(text, pos, n, 1);
    RunAt(text, pos, n, 2);
    RunAt(text, pos, n, 3);
  }

  /**
   * The name field of a read segment: decoded when a fifth field follows, 0 at a
   * separator; at the end of the text the digit read past it is 0 and nothing follows.
   */
  lemma NameOfRead(text: string, pos: int, ds: seq<int>, p4: int, next: Cursor) returns (dn: int, p5: int)
    requires ReadsSegment(text, pos, ds) && |ds| >= 4 && p4 == DecodeRun(text, pos, 4).1
    ensures (dn, p5) == if IsSeparator(ElementAt(text, p4)) then (0, p4) else DecodeAt(text, p4)
    ensures dn == if |ds| >= 5 then ds[4] else 0
    ensures Segments(text, p5, next, true) == Segments(text, DecodeRun(text, pos, |ds|).1, next, true)
  {
    var n := |ds|;
    var end := DecodeRun(text, pos, n).1;
    if n == 5 {
      RunAt(text, pos, n, 4);
      dn, p5 := ds[4], end;
    } else if p4 < |text| {
      dn, p5 := 0, p4;
    } else {
      LoneDigit(text, p4);
      dn, p5 := 0, p4 + 1;
      SegmentsAtEnd(text, p5, next);
      SegmentsAtEnd(text, end, next);
    }
  }

  /** What the loop reads is what the items describe. */
  lemma {:induction false} ReadsSegments(text: string, pos: int, items: seq<Item>, cur: Cursor)
    requires Reads(text, pos, items)
    ensures Segments(text, pos, cur, true) == Expected(items, cur)
    decreases |items|, 1
  {
    if items == [] {
      SegmentsAtEnd(text, pos, cur);
    } else if items[0].LineBreak? {
      LineBreakReads(text, pos, items, cur);
    } else {
      FieldsReads(text, pos, items, cur);
    }
  }

  /** A line break item, then what follows it. */
  lemma {:induction false} LineBreakReads(text: string, pos: int, items: seq<Item>, cur: Cursor)
    requires items != [] && items[0].LineBreak? && Reads(text, pos, items)
    ensures Segments(text, pos, cur, true) == Expected(items, cur)
    decreases |items|, 0
  {
    SegmentsAtLineBreak(text, pos, cur);
    ReadsSegments(text, pos + 1, items[1..], cur.(line := cur.line + 1, column := 0));
  }

  /** A segment item, then what follows it. */
  lemma {:induction false} FieldsReads(text: string, pos: int, items: seq<Item>, cur: Cursor)
    requires items != [] && items[0].Fields? && Reads(text, pos, items)
    ensures Segments(text, pos, cur, true) == Expected(items, cur)
    decreases |items|, 0
  {
    var ds := items[0].deltas;
    var next := Advance(cur, ds);
    SegmentOfRead(text, pos, ds, cur, next);
    ReadsAfterSegments(text, DecodeRun(text, pos, |ds|).1, items[1..], next);
  }

  /** A read segment pushes an entry when it has source fields; the loop goes on where it ends. */
  lemma SegmentOfRead(text: string, pos: int, ds: seq<int>, cur: Cursor, next: Cursor)
    requires ReadsSegment(text, pos, ds) && next == Advance(cur, ds)
    ensures Segments(text, pos, cur, true) ==
              (if |ds| >= 4 then [EntryOf(next)] else []) + Segments(text, DecodeRun(text, pos, |ds|).1, next, true)
  {
    if |ds| == 1 {
      ColumnOfRead(text, pos, ds, cur, next);
      assert [] + Segments(text, DecodeRun(text, pos, 1).1, next, true) == Segments(text, DecodeRun(text, pos, 1).1, next, true);
    } else {
      FieldsOfRead(text, pos, ds, cur, next);
    }
  }

  lemma {:induction false} ReadsAfterSegments(text: string, pos: int, items: seq<Item>, cur: Cursor)
    requires ReadsAfter(text, pos, items)
    ensures Segments(text, pos, cur, true) == Expected(items, cur)
    decreases |items|, 2
  {
    if Comma(items) == "," {
      SegmentsAtSegment(text, pos + 1, cur);
    }
    ReadsSegments(text, if Comma(items) == "," then pos + 1 else pos, items, cur);
  }

  /** The text of a list that starts with a line break. */
  lemma LineBreakText(text: string, pos: int, items: seq<Item>)
    requires 0 <= pos <= |text| && text[pos..] == Serialize(items) && ItemsOk(items)
    requires items != [] && items[0].LineBreak?
    ensures pos < |text| && text[pos] == ';' && text[pos + 1..] == Serialize(items[1..])
    ensures pos + 1 == |text| || text[pos + 1] != ','
  {
    ItemsOkRest(items);
    var rest := items[1..];
    Split(text, pos, ";", Serialize(rest));
    assert text[pos] == text[pos..pos + 1][0];
    if rest != [] {
      SerializeStart(rest);
      assert text[pos + 1] == text[pos + 1..][0];
    }
  }

  /** The text of a list that starts with a segment. */
  lemma SegmentText(text: string, pos: int, items: seq<Item>)
    requires 0 <= pos <= |text| && text[pos..] == Serialize(items) && ItemsOk(items)
    requires items != [] && items[0].Fields?
    ensures text[pos..] == EncodeFields(items[0].deltas) + (Comma(items[1..]) + Serialize(items[1..]))
  {
  }

  /** A segment's text starts with no separator. */
  lemma SegmentTextStart(text: string, pos: int, items: seq<Item>)
    requires 0 <= pos <= |text| && text[pos..] == Serialize(items) && ItemsOk(items)
    requires items != [] && items[0].Fields?
    ensures pos < |text| && text[pos] != ',' && text[pos] != ';'
  {
    SerializeStart(items);
    assert text[pos] == text[pos..][0];
  }

  /** What follows a segment's fields: nothing, or a ',' or ';'. */
  predicate Delimited(after: string)
  {
    after == [] || after[0] == ',' || after[0] == ';'
  }

  lemma DelimitedRest(rest: seq<Item>)
    requires ItemsOk(rest)
    ensures Delimited(Comma(rest) + Serialize(rest))
  {
    if rest != [] {
      ItemsOkRest(rest);
      SerializeStart(rest);
    }
  }

  /** The fields `ds` are all below 2^29 in magnitude. */
  predicate SmallFields(ds: seq<int>)
  {
    forall k :: 0 <= k < |ds| ==> -0x2000_0000 < ds[k] < 0x2000_0000
  }

  /** One `_decodeVLQ` call, then the rest of the run. */
  lemma RunCons(text: string, pos: int, k: nat, v: int, p: int)
    requires k > 0 && DecodeAt(text, pos) == (v, p)
    ensures DecodeRun(text, pos, k) == ([v] + DecodeRun(text, p, k - 1).0, DecodeRun(text, p, k - 1).1)
  {
  }

  /** `ds` without its first field keeps the bound. */
  lemma SmallFieldsRest(ds: seq<int>)
    requires SmallFields(ds) && ds != []
    ensures -0x2000_0000 < ds[0] < 0x2000_0000 && SmallFields(ds[1..])
  {
    forall j | 0 <= j < |ds| - 1
      ensures -0x2000_0000 < ds[1..][j] < 0x2000_0000
    {
      assert ds[1..][j] == ds[j + 1];
    }
  }

  /** Each field of `ds`, read in turn from `pos`, decodes to its value and ends where its text does. */
  predicate Encoded(text: string, pos: int, ds: seq<int>)
    decreases |ds|
  {
    ds == [] ||
    (var p1 := pos + |EncodeVlq(ds[0])|;
     DecodeAt(text, pos) == (ds[0], p1) && Encoded(text, p1, ds[1..]))
  }

  /** The text of small fields is read field by field. */
  lemma {:induction false} EncodedFrom(text: string, pos: int, ds: seq<int>, tail: string)
    requires SmallFields(ds)
    requires 0 <= pos <= |text| && text[pos..] == EncodeFields(ds) + tail
    ensures Encoded(text, pos, ds)
    decreases |ds|
  {
    if ds != [] {
      var others := EncodeFields(ds[1..]);
      SmallFieldsRest(ds);
      assert text[pos..] == EncodeVlq(ds[0]) + (others + tail);
      FieldAt(text, pos, ds[0], others + tail);
      EncodedFrom(text, pos + |EncodeVlq(ds[0])|, ds[1..], tail);
    }
  }

  /** Reading `k` fields of an encoded run gives them back and stops right after their text. */
  lemma {:induction false} RunOfEncoded(text: string, pos: int, ds: seq<int>, k: nat)
    requires Encoded(text, pos, ds) && k <= |ds|
    ensures DecodeRun(text, pos, k) == (ds[..k], pos + |EncodeFields(ds[..k])|)
    decreases k
  {
    if k > 0 {
      var p1 := pos + |EncodeVlq(ds[0])|;
      RunOfEncoded(text, p1, ds[1..], k - 1);
      RunCons(text, pos, k, ds[0], p1);
      PrefixCons(ds, k);
    }
  }

  /** Reading the first `k` of the encoded fields `ds` gives them back and stops right after their text. */
  lemma FieldsPrefix(text: string, pos: int, ds: seq<int>, k: nat, tail: string)
    requires SmallFields(ds) && k <= |ds|
    requires 0 <= pos <= |text| && text[pos..] == EncodeFields(ds) + tail
    ensures DecodeRun(text, pos, k) == (ds[..k], pos + |EncodeFields(ds[..k])|)
  {
    EncodedFrom(text, pos, ds, tail);
    RunOfEncoded(text, pos, ds, k);
  }

  /** The first `k` fields are the first field, then the first `k - 1` of the others. */
  lemma PrefixCons(ds: seq<int>, k: nat)
    requires 0 < k <= |ds|
    ensures [ds[0]] + ds[1..][..k - 1] == ds[..k]
    ensures EncodeFields(ds[..k]) == EncodeVlq(ds[0]) + EncodeFields(ds[1..][..k - 1])
  {
    assert ds[..k][0] == ds[0] && ds[..k][1..] == ds[1..][..k - 1];
  }

  /** The text of fields splits at any field. */
  lemma {:induction false} EncodeFieldsSplit(ds: seq<int>, k: nat)
    requires k <= |ds|
    ensures EncodeFields(ds) == EncodeFields(ds[..k]) + EncodeFields(ds[k..])
    decreases k
  {
    if k == 0 {
      assert ds[..0] == [] && ds[0..] == ds;
    } else {
      EncodeFieldsSplit(ds[1..], k - 1);
      PrefixCons(ds, k);
      assert ds[1..][k - 1..] == ds[k..];
    }
  }

  /** Where the first `k` encoded fields end, the others start. */
  lemma SuffixAt(text: string, pos: int, ds: seq<int>, k: nat, tail: string)
    requires k <= |ds| && 0 <= pos <= |text| && text[pos..] == EncodeFields(ds) + tail
    ensures pos + |EncodeFields(ds[..k])| <= |text|
    ensures text[pos + |EncodeFields(ds[..k])|..] == EncodeFields(ds[k..]) + tail
  {
    EncodeFieldsSplit(ds, k);
    Split(text, pos, EncodeFields(ds[..k]), EncodeFields(ds[k..]) + tail);
  }

  /** The encoded fields `ds` do not start with a separator. */
  lemma FieldStart(text: string, q: int, ds: seq<int>, tail: string)
    requires ds != [] && 0 <= q <= |text| && text[q..] == EncodeFields(ds) + tail
    ensures q < |text| && text[q] != ',' && text[q] != ';'
  {
    EncodeVlqStart(ds[0]);
    assert text[q..][0] == EncodeVlq(ds[0])[0];
    assert text[q] == text[q..][0];
  }

  /** The text of a segment reads as its fields. */
  lemma SegmentReads(text: string, pos: int, ds: seq<int>, after: string)
    requires ItemOk(Fields(ds)) && Delimited(after)
    requires 0 <= pos <= |text| && text[pos..] == EncodeFields(ds) + after
    ensures ReadsSegment(text, pos, ds)
    ensures var q := DecodeRun(text, pos, |ds|).1; 0 <= q <= |text| && text[q..] == after
  {
    FieldStart(text, pos, ds, after);
    var q := RunEnd(text, pos, ds, after);
    if |ds| >= 4 {
      FieldBoundary(text, pos, ds, 1, after);
      if |ds| == 5 {
        FieldBoundary(text, pos, ds, 4, after);
      }
    }
    ReadsSegmentIntro(text, pos, ds, q);
  }

  /** The facts `ReadsSegment` collects. */
  lemma ReadsSegmentIntro(text: string, pos: int, ds: seq<int>, q: int)
    requires 0 <= pos < |text| && text[pos] != ',' && text[pos] != ';'
    requires DecodeRun(text, pos, |ds|) == (ds, q) && SegmentEnds(text, q, true)
    requires |ds| == 1 ||
             ((|ds| == 4 || |ds| == 5) && !SegmentEnds(text, DecodeRun(text, pos, 1).1, true) &&
              (|ds| == 5 ==> !SegmentEnds(text, DecodeRun(text, pos, 4).1, true)))
    ensures ReadsSegment(text, pos, ds)
  {
  }

  /** Reading all the fields stops at `after`. */
  lemma RunEnd(text: string, pos: int, ds: seq<int>, after: string) returns (q: int)
    requires ItemOk(Fields(ds)) && Delimited(after)
    requires 0 <= pos <= |text| && text[pos..] == EncodeFields(ds) + after
    ensures DecodeRun(text, pos, |ds|) == (ds, q)
    ensures 0 <= q <= |text| && text[q..] == after && SegmentEnds(text, q, true)
  {
    FieldsPrefix(text, pos, ds, |ds|, after);
    assert ds[..|ds|] == ds;
    SegmentEnd(text, pos, ds, after);
    q := pos + |EncodeFields(ds)|;
  }

  /** Reading the first `k` fields stops where field `k` starts, not at a separator. */
  lemma FieldBoundary(text: string, pos: int, ds: seq<int>, k: nat, tail: string)
    requires SmallFields(ds) && k < |ds|
    requires 0 <= pos <= |text| && text[pos..] == EncodeFields(ds) + tail
    ensures !SegmentEnds(text, DecodeRun(text, pos, k).1, true)
  {
    FieldStartAt(text, pos, ds, k, tail);
    assert DecodeRun(text, pos, k).1 == pos + |EncodeFields(ds[..k])| by {
      FieldsPrefix(text, pos, ds, k, tail);
    }
  }

  /** After all the fields comes `after`: a separator or the end. */
  lemma SegmentEnd(text: string, pos: int, ds: seq<int>, after: string)
    requires Delimited(after) && 0 <= pos <= |text| && text[pos..] == EncodeFields(ds) + after
    ensures var q := pos + |EncodeFields(ds)|; q <= |text| && text[q..] == after && SegmentEnds(text, q, true)
  {
    var q := pos + |EncodeFields(ds)|;
    Split(text, pos, EncodeFields(ds), after);
    if q < |text| {
      assert text[q] == text[q..][0];
    }
  }

  /** Field `k` starts with no separator. */
  lemma FieldStartAt(text: string, pos: int, ds: seq<int>, k: nat, tail: string)
    requires k < |ds| && 0 <= pos <= |text| && text[pos..] == EncodeFields(ds) + tail
    ensures !SegmentEnds(text, pos + |EncodeFields(ds[..k])|, true)
  {
    SuffixAt(text, pos, ds, k, tail);
    FieldStart(text, pos + |EncodeFields(ds[..k])|, ds[k..], tail);
  }

  /** The text of well-formed items reads as those items. */
  lemma {:induction false} SerializedReads(text: string, pos: int, items: seq<Item>)
    requires 0 <= pos <= |text| && text[pos..] == Serialize(items) && ItemsOk(items)
    ensures Reads(text, pos, items)
    decreases |items|, 1
  {
    if items != [] {
      ItemsOkRest(items);
      if items[0].LineBreak? {
        LineBreakText(text, pos, items);
        SerializedReads(text, pos + 1, items[1..]);
      } else {
        var ds := items[0].deltas;
        var after := Comma(items[1..]) + Serialize(items[1..]);
        SegmentText(text, pos, items);
        DelimitedRest(items[1..]);
        SegmentReads(text, pos, ds, after);
        AfterReads(text, DecodeRun(text, pos, |ds|).1, items[1..]);
      }
    }
  }

  lemma {:induction false} AfterReads(text: string, pos: int, items: seq<Item>)
    requires 0 <= pos <= |text| && text[pos..] == Comma(items) + Serialize(items) && ItemsOk(items)
    ensures ReadsAfter(text, pos, items)
    decreases |items|, 2
  {
    if Comma(items) == "," {
      Split(text, pos, ",", Serialize(items));
      assert text[pos] == text[pos..pos + 1][0];
      SerializedReads(text, pos + 1, items);
    } else {
      assert text[pos..] == Serialize(items);
      SerializedReads(text, pos, items);
    }
  }

  /**
   * Round trip of the `mappings` format: parsing the text of well-formed items
   * from the start gives exactly the entries they describe.
   */
  lemma MappingsRoundTrip(items: seq<Item>, cur: Cursor)
    requires ItemsOk(items)
    ensures Segments(Serialize(items), 0, cur, true) == Expected(items, cur)
  {
    var text := Serialize(items);
    assert text[0..] == text;
    SerializedReads(text, 0, items);
    ReadsSegments(text, 0, items, cur);
  }
}
