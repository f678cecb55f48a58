/** The page that `generate_pdf` lays out for one note: font choice, title,
    the non-empty fields on a falling cursor, the remarks caption and the
    remarks text wrapped at 35 characters, all on a single page. Drawing is
    recorded as a sequence of canvas operations with coordinates in
    millimetres; the drawing library itself is not modelled. */
module PtaPdf {
  import opened Text
  import opened Wrap

  datatype Option<T> = None | Some(value: T)

  /** The values handed to `generate_pdf`; `caution` may be missing. */
  datatype Record = Record(
    docType: string, user: string, date: string, time: string, event: string,
    location: string, dress: string, person: string, participants: string,
    caution: Option<string>)

  /** One (label, value) pair of the fixed field list. */
  datatype Field = Field(name: string, value: string)

  /** A canvas operation; x and y are in millimetres, font sizes and the
      text leading in points. */
  datatype Op =
    | SetFont(name: string, size: nat)
    | DrawCentred(x: int, y: int, text: string)
    | Rule(x1: int, y1: int, x2: int, y2: int)
    | DrawString(x: int, y: int, text: string)
    | DrawText(x: int, y: int, font: string, size: nat, leading: nat, lines: seq<string>)
    | ShowPage
    | Save(path: string)

  const OutputPath: string := "PTA_Output.pdf"
  const PreferredFont: string := "MS-Gothic-Web"
  const FallbackFont: string := "Helvetica"

  /** Vertical cursor: first field line, step per field, gap below the caption. */
  const TopY: int := 265
  const FieldStep: int := 10
  const CaptionGap: int := 8
  const FieldX: int := 25
  const TextX: int := 30
  const Caption: string := "【内容・注意事項・申し送り】:"

  /** The field labels in drawing order: author, date, time, event,
      location, dress and belongings, companions, participants. */
  const Labels: seq<string> :=
    ["入力者", "開催日", "時間", "行事内容", "開催場所", "服装・持参物", "同行者", "参加者"]

  // ---------------------------------------------------------------- font and title

  /** The preferred font is used only when its file exists and registering
      it does not raise; otherwise Helvetica. */
  function ResolveFont(fontFileExists: bool, registerSucceeds: bool): (font: string)
    ensures font == PreferredFont <==> fontFileExists && registerSucceeds
    ensures font != PreferredFont ==> font == FallbackFont
  {
    if fontFileExists then
      (if registerSucceeds then PreferredFont else FallbackFont)
    else FallbackFont
  }

  /** The centred title: the fixed prefix followed by the document type,
      which can be read back from it. */
  function Title(docType: string): (t: string)
    ensures |t| == |docType| + 4
    ensures t[..4] == "PTA " && t[4..] == docType
  {
    "PTA " + docType
  }

  // ---------------------------------------------------------------- fields

  /** The eight (label, value) pairs, in their fixed order. */
  function Items(r: Record): seq<Field> {
    [Field(Labels[0], r.user), Field(Labels[1], r.date), Field(Labels[2], r.time),
     Field(Labels[3], r.event), Field(Labels[4], r.location), Field(Labels[5], r.dress),
     Field(Labels[6], r.person), Field(Labels[7], r.participants)]
  }

  /** The pairs that are drawn: those with a non-empty value, in order. */
  function Shown(items: seq<Field>): seq<Field> {
    if items == [] then []
    else (if items[0].value != "" then [items[0]] else []) + Shown(items[1..])
  }

  /** The positions, counted from `base`, of the pairs that are drawn. */
  function KeptFrom(items: seq<Field>, base: nat): seq<nat> {
    if items == [] then []
    else (if items[0].value != "" then [base] else []) + KeptFrom(items[1..], base + 1)
  }

  lemma {:induction false} KeptAt(items: seq<Field>, base: nat)
    ensures |KeptFrom(items, base)| == |Shown(items)| <= |items|
    ensures forall k :: 0 <= k < |Shown(items)| ==>
      base <= KeptFrom(items, base)[k] < base + |items| &&
      Shown(items)[k] == items[KeptFrom(items, base)[k] - base]
  {
    if items != [] {
      var tail := items[1..];
      KeptAt(tail, base + 1);
      var ix, sh := KeptFrom(items, base), KeptFrom(tail, base + 1);
      var d := if items[0].value != "" then 1 else 0;
      assert ix == (if d == 1 then [base] else []) + sh;
      assert Shown(items) == (if d == 1 then [items[0]] else []) + Shown(tail);
      forall k | d <= k < |ix|
        ensures base <= ix[k] < base + |items| && Shown(items)[k] == items[ix[k] - base]
      {
        assert ix[k] == sh[k - d];
        assert Shown(items)[k] == Shown(tail)[k - d];
        assert items[ix[k] - base] == tail[sh[k - d] - (base + 1)];
      }
    }
  }

  lemma {:induction false} KeptIncreasing(items: seq<Field>, base: nat)
    ensures forall k :: 0 <= k < |KeptFrom(items, base)| ==> base <= KeptFrom(items, base)[k]
    ensures forall k, l :: 0 <= k < l < |KeptFrom(items, base)| ==>
      KeptFrom(items, base)[k] < KeptFrom(items, base)[l]
  {
    if items != [] {
      var tail := items[1..];
      KeptIncreasing(tail, base + 1);
      var ix, sh := KeptFrom(items, base), KeptFrom(tail, base + 1);
      if items[0].value != "" {
        assert ix == [base] + sh;
        forall k | 0 <= k < |ix| ensures base <= ix[k] {
          if k > 0 {
            assert ix[k] == sh[k - 1];
          }
        }
        forall k, l | 0 <= k < l < |ix| ensures ix[k] < ix[l] {
          assert ix[l] == sh[l - 1];
          if k > 0 {
            assert ix[k] == sh[k - 1];
          }
        }
      } else {
        assert ix == sh;
      }
    }
  }

  lemma {:induction false} KeptMembers(items: seq<Field>, base: nat)
    ensures forall i :: base <= i < base + |items| ==>
      (i in KeptFrom(items, base) <==> items[i - base].value != "")
    ensures forall i :: i in KeptFrom(items, base) ==> base <= i < base + |items|
  {
    if items != [] {
      var tail := items[1..];
      KeptMembers(tail, base + 1);
      var ix, sh := KeptFrom(items, base), KeptFrom(tail, base + 1);
      var head: seq<nat> := if items[0].value != "" then [base] else [];
      assert ix == head + sh;
      forall i | i in ix
        ensures base <= i < base + |items|
      {
        assert i in head || i in sh;
      }
      forall i | base <= i < base + |items|
        ensures i in ix <==> items[i - base].value != ""
      {
        assert i in ix <==> i in head || i in sh;
        if i > base {
          assert items[i - base] == tail[i - (base + 1)];
        }
      }
    }
  }

  lemma {:induction false} NoneShown(items: seq<Field>)
    requires forall i :: 0 <= i < |items| ==> items[i].value == ""
    ensures Shown(items) == []
  {
    if items != [] {
      NoneShown(items[1..]);
    }
  }

  /** The positions of the drawn pairs. */
  function Kept(items: seq<Field>): seq<nat> {
    KeptFrom(items, 0)
  }

  /** Filtering is exact and order-preserving: the drawn pairs are the pairs
      at strictly increasing positions of `items`, and a position is among
      them exactly when its value is non-empty. */
  lemma ShownSpec(items: seq<Field>)
    ensures |Kept(items)| == |Shown(items)| <= |items|
    ensures forall k :: 0 <= k < |Kept(items)| ==>
      Kept(items)[k] < |items| && Shown(items)[k] == items[Kept(items)[k]]
    ensures forall k, l :: 0 <= k < l < |Kept(items)| ==> Kept(items)[k] < Kept(items)[l]
    ensures forall i :: 0 <= i < |items| ==> (i in Kept(items) <==> items[i].value != "")
  {
    KeptAt(items, 0);
    KeptIncreasing(items, 0);
    KeptMembers(items, 0);
  }

  lemma LabelsDistinct()
    ensures forall a, b :: 0 <= a < b < |Labels| ==> Labels[a] != Labels[b]
  {
    assert Labels[0][0] == '入' && Labels[1][0] == '開' && Labels[2][0] == '時';
    assert Labels[3][0] == '行' && Labels[4][0] == '開' && Labels[5][0] == '服';
    assert Labels[6][0] == '同' && Labels[7][0] == '参';
    assert |Labels[1]| == 3 && |Labels[4]| == 4;
  }

  lemma ItemNames(r: Record)
    ensures |Items(r)| == |Labels|
    ensures forall a :: 0 <= a < |Labels| ==> Items(r)[a].name == Labels[a]
  {
  }

  /** For a note, the field labelled `Labels[i]` is drawn exactly when its
      value is non-empty, and no label is drawn twice. */
  lemma FieldDrawnIff(r: Record, i: nat)
    requires i < |Labels|
    ensures (exists k :: 0 <= k < |Shown(Items(r))| && Shown(Items(r))[k].name == Labels[i])
      <==> Items(r)[i].value != ""
    ensures forall k, l :: 0 <= k < l < |Shown(Items(r))| ==>
      Shown(Items(r))[k].name != Shown(Items(r))[l].name
  {
    var items := Items(r);
    var shown := Shown(items);
    var ix := Kept(items);
    ShownSpec(items);
    ItemNames(r);
    LabelsDistinct();
    assert forall k :: 0 <= k < |shown| ==> shown[k].name == Labels[ix[k]];
    if items[i].value != "" {
      var k :| 0 <= k < |ix| && ix[k] == i;
      assert shown[k].name == Labels[i];
    }
  }

  /** The text of a drawn field line. */
  function FieldText(f: Field): string {
    "【" + f.name + "】: " + f.value
  }

  /** The field lines drawn from cursor `y` downwards. */
  function FieldOps(items: seq<Field>, y: int): seq<Op> {
    if items == [] then []
    else if items[0].value != "" then
      [DrawString(FieldX, y, FieldText(items[0]))] + FieldOps(items[1..], y - FieldStep)
    else FieldOps(items[1..], y)
  }

  /** The k-th drawn field line (from 0) is the k-th non-empty pair, at
      `y - 10 * k`. */
  lemma {:induction false} FieldOpsAt(items: seq<Field>, y: int)
    ensures |FieldOps(items, y)| == |Shown(items)|
    ensures forall k :: 0 <= k < |Shown(items)| ==>
      FieldOps(items, y)[k] == DrawString(FieldX, y - FieldStep * k, FieldText(Shown(items)[k]))
  {
    if items != [] {
      var tail := items[1..];
      if items[0].value != "" {
        FieldOpsAt(tail, y - FieldStep);
        forall k | 1 <= k < |Shown(items)|
          ensures FieldOps(items, y)[k] == DrawString(FieldX, y - FieldStep * k, FieldText(Shown(items)[k]))
        {
          assert FieldOps(items, y)[k] == FieldOps(tail, y - FieldStep)[k - 1];
          assert Shown(items)[k] == Shown(tail)[k - 1];
        }
      } else {
        FieldOpsAt(tail, y);
      }
    }
  }

  /** One step of the field loop at position i. */
  lemma FieldStepAt(items: seq<Field>, i: nat, y: int)
    requires i < |items|
    ensures items[i].value != "" ==>
      FieldOps(items[i..], y) == [DrawString(FieldX, y, FieldText(items[i]))] + FieldOps(items[i + 1..], y - FieldStep) &&
      |Shown(items[i..])| == 1 + |Shown(items[i + 1..])|
    ensures items[i].value == "" ==>
      FieldOps(items[i..], y) == FieldOps(items[i + 1..], y) &&
      |Shown(items[i..])| == |Shown(items[i + 1..])|
  {
    assert items[i..][1..] == items[i + 1..];
  }

  /** The field loop: one line per non-empty pair, the cursor falling by 10
      after each drawn line. */
  method DrawFields(items: seq<Field>) returns (ops: seq<Op>, y: int)
    ensures ops == FieldOps(items, TopY)
    ensures y == TopY - FieldStep * |Shown(items)|
  {
    ops := [];
    y := TopY;
    var i := 0;
    assert items[0..] == items;
    while i < |items|
      invariant 0 <= i <= |items|
      invariant ops + FieldOps(items[i..], y) == FieldOps(items, TopY)
      invariant y - FieldStep * |Shown(items[i..])| == TopY - FieldStep * |Shown(items)|
    {
      var f := items[i];
      FieldStepAt(items, i, y);
      if f.value != "" {
        ghost var before := ops;
        var line := DrawString(FieldX, y, FieldText(f));
        ops := ops + [line];
        assert before + [line] + FieldOps(items[i + 1..], y - FieldStep)
            == before + ([line] + FieldOps(items[i + 1..], y - FieldStep));
        y := y - FieldStep;
      }
      i := i + 1;
    }
    assert items[i..] == [];
    assert ops + [] == ops;
  }

  // ---------------------------------------------------------------- remarks

  /** The remarks text, a missing value read as empty. */
  function RemarksText(caution: Option<string>): string {
    match caution
    case None => ""
    case Some(s) => s
  }

  /** The lines of the remarks text object: every source line cut into
      35-character chunks. */
  function RemarkLines(caution: Option<string>): seq<string> {
    WrapAll(SplitLines(RemarksText(caution)))
  }

  /** Every remarks line holds 1 to 35 characters; read in order they give
      the remarks text back with only its line breaks removed; no remarks
      give no lines. */
  lemma {:induction false} RemarkLinesSpec(caution: Option<string>)
    ensures forall k :: 0 <= k < |RemarkLines(caution)| ==> 1 <= |RemarkLines(caution)[k]| <= WrapWidth
    ensures Concat(RemarkLines(caution)) == StripBreaks(RemarksText(caution))
    ensures caution == None || caution == Some("") ==> RemarkLines(caution) == []
  {
    var lines := SplitLines(RemarksText(caution));
    WrapAllBounds(lines);
    WrapAllConcat(lines);
    ConcatSplitLines(RemarksText(caution));
  }

  /** Remarks written line by line, with any separators and with or without
      a final one: each source line is wrapped on its own, in order, and an
      empty source line yields nothing. */
  lemma {:induction false} RemarksByLine(lines: seq<string>, seps: seq<string>, last: string)
    requires |seps| == |lines| && WellJoined(lines, seps, last)
    ensures RemarkLines(Some(Joined(lines, seps, last))) ==
      WrapAll(lines + (if last == [] then [] else [last]))
  {
    SplitJoined(lines, seps, last);
  }

  /** The usual text-area value: two short lines, the second without a final
      line feed, give two remarks lines. */
  lemma TwoLineRemark()
    ensures RemarkLines(Some("a\nb")) == ["a", "b"]
  {
    var one: seq<string> := [];
    assert Joined(["a"], ["\n"], "b") == "a\nb";
    RemarksByLine(["a"], ["\n"], "b");
    assert ["a"] + ["b"] == ["a", "b"];
    var ab: seq<string> := ["a", "b"];
    assert ab[1..] == ["b"] && ab[1..][1..] == one;
    assert Chunks("a") == ["a"] && Chunks("b") == ["b"];
  }

  /** A single paragraph of L characters gives ceil(L / 35) lines that
      concatenate back to the paragraph. */
  lemma {:induction false} SingleParagraph(s: string)
    requires s != [] && NoBreaks(s)
    ensures RemarkLines(Some(s)) == Chunks(s)
    ensures |RemarkLines(Some(s))| == (|s| + WrapWidth - 1) / WrapWidth
    ensures Concat(RemarkLines(Some(s))) == s
  {
    SingleLine(s);
    var one: seq<string> := [s];
    assert one[1..] == [];
    assert WrapAll(one) == Chunks(s) + WrapAll([]);
    assert Chunks(s) + [] == Chunks(s);
    ChunkCount(s);
    ChunkConcat(s);
  }

  /** A single paragraph of 100 characters gives three remarks lines: two
      of 35 characters and a last one of 30. */
  lemma HundredCharParagraph(s: string)
    requires |s| == 100 && NoBreaks(s)
    ensures |RemarkLines(Some(s))| == 3
    ensures |RemarkLines(Some(s))[0]| == 35 && |RemarkLines(Some(s))[1]| == 35
    ensures |RemarkLines(Some(s))[2]| == 30
  {
    SingleParagraph(s);
    ChunkAt(s, 0);
    ChunkAt(s, 1);
    ChunkAt(s, 2);
  }

  /** The inner remarks loop: appends the slices `line[i:i+35]` for i in
      `range(0, len(line), 35)` to the text object's lines, one at a time. */
  method AppendChunks(textLines: seq<string>, line: string) returns (out: seq<string>)
    ensures out == textLines + Chunks(line)
  {
    out := textLines;
    var i := 0;
    while i < |line|
      invariant 0 <= i
      invariant out + Chunks(if i < |line| then line[i..] else []) == textLines + Chunks(line)
    {
      ChunksStep(line, i);
      out := out + [Slice(line, i, i + WrapWidth)];
      i := i + WrapWidth;
    }
  }

  /** The remarks loop: for each source line, the slices
      `line[i:i+35]` for i in `range(0, len(line), 35)`, one at a time. */
  method WrapRemarks(lines: seq<string>) returns (textLines: seq<string>)
    ensures textLines == WrapAll(lines)
  {
    textLines := [];
    var j := 0;
    while j < |lines|
      invariant 0 <= j <= |lines|
      invariant textLines + WrapAll(lines[j..]) == WrapAll(lines)
    {
      var line := lines[j];
      ghost var before := textLines;
      textLines := AppendChunks(textLines, line);
      assert textLines + WrapAll(lines[j + 1..]) == WrapAll(lines) by {
        assert lines[j..][1..] == lines[j + 1..];
        assert WrapAll(lines[j..]) == Chunks(line) + WrapAll(lines[j + 1..]);
        assert before + Chunks(line) + WrapAll(lines[j + 1..])
            == before + (Chunks(line) + WrapAll(lines[j + 1..]));
      }
      j := j + 1;
    }
  }

  // ---------------------------------------------------------------- the page

  /** Font, title and rule at the head of the page, then the body font. */
  function Header(font: string, docType: string): seq<Op> {
    [SetFont(font, 18), DrawCentred(105, 280, Title(docType)), Rule(20, 275, 190, 275), SetFont(font, 11)]
  }

  /** The caption at `y`, the remarks text object 8 below it, and the end
      of the document. */
  function Trailer(font: string, y: int, textLines: seq<string>): seq<Op> {
    [DrawString(FieldX, y, Caption),
     DrawText(TextX, y - CaptionGap, font, 10, 15, textLines),
     ShowPage, Save(OutputPath)]
  }

  /** The page for a given font, document type, field list and wrapped
      remarks lines. */
  function Page(font: string, docType: string, items: seq<Field>, textLines: seq<string>): seq<Op> {
    Header(font, docType)
    + FieldOps(items, TopY)
    + Trailer(font, TopY - FieldStep * |Shown(items)|, textLines)
  }

  /** What `generate_pdf` draws for a note, given whether the preferred font
      file exists and whether registering it succeeds. */
  function Render(r: Record, fontFileExists: bool, registerSucceeds: bool): seq<Op> {
    Page(ResolveFont(fontFileExists, registerSucceeds), r.docType, Items(r), RemarkLines(r.caution))
  }

  /** Builds the page step by step, as the source does: font, title and
      rule, the field loop, the caption, the cursor dropped by 8, the
      remarks text object, one `showPage` and the save. */
  method GeneratePdf(data: Record, fontFileExists: bool, registerSucceeds: bool)
    returns (doc: seq<Op>, filepath: string)
    ensures filepath == OutputPath
    ensures doc == Render(data, fontFileExists, registerSucceeds)
  {
    filepath := OutputPath;
    var fMain: string;
    if fontFileExists {
      if registerSucceeds {
        fMain := PreferredFont;
      } else {
        fMain := FallbackFont;
      }
    } else {
      fMain := FallbackFont;
    }
    assert fMain == ResolveFont(fontFileExists, registerSucceeds);
    doc := [SetFont(fMain, 18), DrawCentred(105, 280, "PTA " + data.docType),
            Rule(20, 275, 190, 275), SetFont(fMain, 11)];
    ghost var header := doc;
    assert header == Header(fMain, data.docType);
    var fieldOps, y := DrawFields(Items(data));
    ghost var top := y;
    doc := doc + fieldOps;
    doc := doc + [DrawString(FieldX, y, Caption)];
    y := y - CaptionGap;
    var cautionText := if data.caution.Some? then data.caution.value else "";
    assert cautionText == RemarksText(data.caution);
    var textLines := WrapRemarks(SplitLines(cautionText));
    doc := doc + [DrawText(TextX, y, fMain, 10, 15, textLines), ShowPage, Save(filepath)];
    assert doc == header + fieldOps + Trailer(fMain, top, textLines);
  }

  // ---------------------------------------------------------------- properties of the page

  /** The number of pages: the `showPage` operations. */
  function PageCount(doc: seq<Op>): nat {
    multiset(doc)[ShowPage]
  }

  lemma PartsIndex(h: seq<Op>, f: seq<Op>, t: seq<Op>)
    ensures |h + f + t| == |h| + |f| + |t|
    ensures forall k :: 0 <= k < |h| ==> (h + f + t)[k] == h[k]
    ensures forall k :: 0 <= k < |f| ==> (h + f + t)[|h| + k] == f[k]
    ensures forall k :: 0 <= k < |t| ==> (h + f + t)[|h| + |f| + k] == t[k]
  {
  }

  lemma PageParts(font: string, docType: string, items: seq<Field>, textLines: seq<string>)
    ensures var doc := Page(font, docType, items, textLines);
      var f := FieldOps(items, TopY);
      var n := |Shown(items)|;
      |f| == n && |doc| == n + 8 &&
      doc[0] == SetFont(font, 18) && doc[1] == DrawCentred(105, 280, Title(docType)) &&
      doc[2] == Rule(20, 275, 190, 275) && doc[3] == SetFont(font, 11) &&
      (forall k :: 0 <= k < n ==> doc[4 + k] == f[k]) &&
      doc[4 + n] == DrawString(FieldX, TopY - FieldStep * n, Caption) &&
      doc[5 + n] == DrawText(TextX, TopY - FieldStep * n - CaptionGap, font, 10, 15, textLines) &&
      doc[6 + n] == ShowPage && doc[7 + n] == Save(OutputPath)
  {
    var h := Header(font, docType);
    var f := FieldOps(items, TopY);
    var n := |Shown(items)|;
    var t := Trailer(font, TopY - FieldStep * n, textLines);
    FieldOpsAt(items, TopY);
    PartsIndex(h, f, t);
  }

  /** There is no page-break logic: the document has exactly one page, ended
      by the one `showPage` just before the file is saved. */
  lemma SinglePage(font: string, docType: string, items: seq<Field>, textLines: seq<string>)
    ensures PageCount(Page(font, docType, items, textLines)) == 1
    ensures var doc := Page(font, docType, items, textLines);
      |doc| >= 2 && doc[|doc| - 2] == ShowPage && doc[|doc| - 1] == Save(OutputPath)
  {
    var h := Header(font, docType);
    var f := FieldOps(items, TopY);
    var t := Trailer(font, TopY - FieldStep * |Shown(items)|, textLines);
    PageParts(font, docType, items, textLines);
    FieldOpsAt(items, TopY);
    assert ShowPage !in f by {
      forall k | 0 <= k < |f| ensures f[k] != ShowPage {
        assert f[k].DrawString?;
      }
    }
    assert multiset(h + f + t) == multiset(h) + multiset(f) + multiset(t);
    assert multiset(h)[ShowPage] == 0;
    assert multiset(t)[ShowPage] == 1;
  }

  /** Where everything lands: the title, then the k-th drawn field at
      265 - 10k, the caption at 265 - 10n for n drawn fields, and the
      remarks text object at 265 - 10n - 8 holding the wrapped remarks. */
  lemma PageLayout(font: string, docType: string, items: seq<Field>, textLines: seq<string>)
    ensures var doc := Page(font, docType, items, textLines);
      var shown := Shown(items);
      var n := |shown|;
      |doc| == n + 8 &&
      doc[1] == DrawCentred(105, 280, Title(docType)) &&
      (forall k :: 0 <= k < n ==> doc[4 + k] == DrawString(FieldX, TopY - FieldStep * k, FieldText(shown[k]))) &&
      doc[4 + n] == DrawString(FieldX, TopY - FieldStep * n, Caption) &&
      doc[5 + n] == DrawText(TextX, TopY - FieldStep * n - CaptionGap, font, 10, 15, textLines)
  {
    PageParts(font, docType, items, textLines);
    FieldOpsAt(items, TopY);
  }

  /** One font for all text: every font setting and the remarks text object
      use the resolved font. */
  lemma OneFont(font: string, docType: string, items: seq<Field>, textLines: seq<string>)
    ensures var doc := Page(font, docType, items, textLines);
      forall k :: 0 <= k < |doc| ==>
        (doc[k].SetFont? ==> doc[k].name == font) && (doc[k].DrawText? ==> doc[k].font == font)
  {
    PageParts(font, docType, items, textLines);
    FieldOpsAt(items, TopY);
    var doc := Page(font, docType, items, textLines);
    var f := FieldOps(items, TopY);
    var n := |Shown(items)|;
    forall k | 0 <= k < |doc|
      ensures (doc[k].SetFont? ==> doc[k].name == font) && (doc[k].DrawText? ==> doc[k].font == font)
    {
      if 4 <= k < 4 + n {
        assert doc[k] == f[k - 4];
      }
    }
  }

  /** With at most eight fields the caption stays between 185 and 265 and the
      remarks origin at or above 177. */
  lemma CursorBounds(r: Record)
    ensures var y := TopY - FieldStep * |Shown(Items(r))|;
      185 <= y <= TopY && y - CaptionGap >= 177
  {
    KeptAt(Items(r), 0);
  }

  /** A note whose fields and remarks are all empty gives the header, the
      caption at the top position and an empty text object, on one page. */
  lemma EmptyNote(r: Record, fontFileExists: bool, registerSucceeds: bool)
    requires r.user == r.date == r.time == r.event == r.location == ""
    requires r.dress == r.person == r.participants == ""
    requires r.caution == None || r.caution == Some("")
    ensures var font := ResolveFont(fontFileExists, registerSucceeds);
      Render(r, fontFileExists, registerSucceeds) ==
        Header(font, r.docType) +
        [DrawString(FieldX, TopY, Caption), DrawText(TextX, TopY - CaptionGap, font, 10, 15, []),
         ShowPage, Save(OutputPath)]
  {
    var items := Items(r);
    NoneShown(items);
    FieldOpsAt(items, TopY);
    assert RemarkLines(r.caution) == [];
  }

  lemma TwoFieldTexts()
    ensures FieldText(Field(Labels[0], "Smith")) == "【入力者】: Smith"
    ensures FieldText(Field(Labels[1], "2024/04/01")) == "【開催日】: 2024/04/01"
  {
    assert Labels[0] == "入力者" && Labels[1] == "開催日";
  }

  /** Two filled fields and no remarks: two field lines at 265 and 255, the
      caption at 245 and an empty text object at 237. */
  lemma TwoFieldNote(r: Record, fontFileExists: bool, registerSucceeds: bool)
    requires r.user == "Smith" && r.date == "2024/04/01"
    requires r.time == r.event == r.location == r.dress == r.person == r.participants == ""
    requires r.caution == Some("")
    ensures var font := ResolveFont(fontFileExists, registerSucceeds);
      Render(r, fontFileExists, registerSucceeds) ==
        Header(font, r.docType) +
        [DrawString(25, 265, "【入力者】: Smith"), DrawString(25, 255, "【開催日】: 2024/04/01"),
         DrawString(25, 245, Caption), DrawText(30, 237, font, 10, 15, []),
         ShowPage, Save(OutputPath)]
  {
    var items := Items(r);
    var font := ResolveFont(fontFileExists, registerSucceeds);
    var f := FieldOps(items, TopY);
    assert Shown(items) == [items[0], items[1]] by {
      assert items[1..][1..] == items[2..];
      NoneShown(items[2..]);
      assert Shown(items[1..]) == [items[1]] + Shown(items[2..]);
    }
    assert f == [DrawString(25, 265, "【入力者】: Smith"), DrawString(25, 255, "【開催日】: 2024/04/01")] by {
      FieldOpsAt(items, TopY);
      TwoFieldTexts();
    }
    assert RemarkLines(r.caution) == [];
    var t := Trailer(font, TopY - FieldStep * 2, []);
    assert Render(r, fontFileExists, registerSucceeds) == Header(font, r.docType) + f + t;
  }
}
