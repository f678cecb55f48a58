# PTA note to PDF: the layout of `generate_pdf`

This project models the layout work done by `generate_pdf` in `PTA_Web.py`. That function turns one PTA meeting note into a one-page A4 PDF:

- It picks a font: the bundled MS Gothic when the font file exists and registering it does not raise, Helvetica otherwise.
- It draws the title `PTA <document type>` centred, with a rule under it.
- It lists the eight labelled fields in a fixed order: author, date, time, event, place, dress and belongings, companions, participants.
  - A field with an empty value is skipped.
  - Each drawn field is a line `【label】: value`, starting at y = 265 mm and moving down 10 mm per drawn line.
- It draws the remarks caption at the cursor, then starts a text object 8 mm lower.
- It cuts the remarks text into lines as Python's `str.splitlines()` does, and cuts each line into slices of 35 characters.
- It ends the single page and saves `PTA_Output.pdf`.

The drawing is recorded as a sequence of canvas operations (`PtaPdf.Op`), with x and y in whole millimetres.

The model has three modules:

- `Text` (Text.dfy): `str.splitlines()` with Python's full set of line-boundary characters. CR LF counts as one boundary, there is no trailing empty line, and the empty text has no lines. It also has a reference "text without its line breaks" function.
- `Wrap` (Wrap.dfy): the 35-character slicing and its properties.
- `PtaPdf` (Layout.dfy):
  - The note record, the font choice, the title, the field filtering, and the specification `Render` of the whole page.
  - The imperative methods: `GeneratePdf`, the field loop `DrawFields`, and the remarks loops `WrapRemarks` and `AppendChunks`. Each is proved equal to its specification function.
  - Lemmas about the page: one page, where every element lands, and one font.

There is no pagination. Every remarks line goes into one text object, `showPage` is called once, the title carries no page index, and the width 35 is a literal. The model therefore has one page, no page breaks and a width of 35.

The specification functions are the reference definitions that the methods and lemmas are stated against:

- `PtaPdf.Items` is the fixed list of eight (label, value) pairs (PTA_Web.py:48).
- `PtaPdf.Shown` keeps the pairs whose value is non-empty (PTA_Web.py:50).
- `PtaPdf.FieldText` is the line `【label】: value` (PTA_Web.py:51).
- `PtaPdf.FieldOps` is the field lines from a cursor downwards (PTA_Web.py:49-52).
- `PtaPdf.RemarksText` reads a missing remark as empty (PTA_Web.py:56).
- `PtaPdf.RemarkLines` is the wrapped remarks (PTA_Web.py:56-58).
- `Wrap.Chunks` is the slices of one line (PTA_Web.py:58).
- `Wrap.WrapAll` is the chunks of every line in turn (PTA_Web.py:57-58).
- `Text.SplitLines` is `str.splitlines()` (PTA_Web.py:57).
- `PtaPdf.Header`, `PtaPdf.Trailer` and `PtaPdf.Page` give the page for a font, a document type, a field list and the wrapped lines.
- `PtaPdf.Render` is the page of a note (PTA_Web.py:28-60).

None of these has a row of its own. The lemmas below state their properties.

## Model

| member | source | states |
|---|---|---|
| PtaPdf.GeneratePdf | PTA_Web.py:28-60 | The document built step by step (font, title, rule, field loop, caption, cursor − 8, remarks text object, `showPage`, save) equals the specification `Render` of the note; the returned path is `PTA_Output.pdf`. |
| PtaPdf.ResolveFont | PTA_Web.py:35-42 | The font is MS-Gothic-Web exactly when the font file exists and registration succeeds; in every other case it is Helvetica. |
| PtaPdf.Title | PTA_Web.py:44 | The title is the prefix `PTA ` followed by the document type, which can be read back from it unchanged. |
| PtaPdf.ShownSpec | PTA_Web.py:48-50 | The drawn pairs are the pairs at strictly increasing positions of the field list, in order. A position is among them exactly when its value is non-empty. |
| PtaPdf.FieldDrawnIff | PTA_Web.py:48-51 | For a note, the field with a given label is drawn if and only if its value is non-empty, and no label is drawn twice. |
| PtaPdf.FieldOpsAt | PTA_Web.py:49-52 | There is one field line per drawn pair. The k-th line (from 0) is `【label】: value` of the k-th non-empty pair, at x = 25, y = 265 − 10k. |
| PtaPdf.FieldStepAt | PTA_Web.py:50-52 | One loop step: a non-empty pair adds its line at the cursor and the cursor drops by 10; an empty pair adds nothing and leaves the cursor. |
| PtaPdf.DrawFields | PTA_Web.py:47-52 | The field loop produces exactly the specified field lines and leaves the cursor at 265 − 10n for n non-empty fields. |
| PtaPdf.CursorBounds | PTA_Web.py:47-54 | With eight fields at most, the caption stays between 185 and 265 and the remarks origin at or above 177. |
| PtaPdf.RemarkLinesSpec | PTA_Web.py:56-58 | Every remarks line holds 1 to 35 characters. Read in order, the lines give back the remarks text with only its line breaks removed. A missing or empty remark gives no lines. |
| PtaPdf.RemarksByLine | PTA_Web.py:56-58 | A remark written line by line is wrapped one source line at a time, in order. This holds with any separators (CR LF, LF, CR or another boundary character) and with or without a final separator. The remarks lines are the chunks of each source line in turn, and then those of the unterminated last line. |
| PtaPdf.TwoLineRemark | PTA_Web.py:56-58 | The usual text-area value `"a\nb"`, with no final line feed, gives the two remarks lines `a` and `b`. |
| PtaPdf.SingleParagraph | PTA_Web.py:56-58 | A non-empty paragraph without line breaks gives exactly its chunks: ceil(L / 35) lines that concatenate back to the paragraph. |
| PtaPdf.HundredCharParagraph | PTA_Web.py:56-58 | A 100-character paragraph gives three lines, of 35, 35 and 30 characters. |
| PtaPdf.AppendChunks | PTA_Web.py:58 | The inner loop appends the slices `line[i:i+35]`, i = 0, 35, 70, …, to the text object's lines, and the result is the lines before followed by the chunks of the line. |
| PtaPdf.WrapRemarks | PTA_Web.py:57-58 | The nested loops over the split lines produce exactly the chunks of every source line, source line after source line. |
| PtaPdf.PageParts | PTA_Web.py:43-59 | The page is, in order: the font at 18 pt, the title, the rule, the font at 11 pt, the field lines, the caption, the remarks text object, `showPage` and the save. It holds n + 8 operations. |
| PtaPdf.PageLayout | PTA_Web.py:43-55 | The title is at (105, 280). The k-th field line is at 265 − 10k. The caption is at 265 − 10n. The remarks text object is at 265 − 10n − 8 and holds the wrapped remarks. |
| PtaPdf.SinglePage | PTA_Web.py:59 | The document has exactly one `showPage`, so one page, and it ends with `showPage` followed by the save. |
| PtaPdf.OneFont | PTA_Web.py:43-55 | Every font setting and the remarks text object use the same resolved font. |
| PtaPdf.EmptyNote | PTA_Web.py:47-59 | A note with every field and the remarks empty gives the header, the caption at 265 and an empty text object at 257, on one page. |
| PtaPdf.TwoFieldNote | PTA_Web.py:47-59 | A note with only author "Smith" and date "2024/04/01" gives two field lines at 265 and 255, the caption at 245 and an empty text object at 237, on one page. |
| Wrap.Slice | PTA_Web.py:58 | Python's `s[lo:hi]` for 0 ≤ lo ≤ hi: the characters from lo up to hi, clamped to the end of the string, and empty when lo is past the end. |
| Wrap.ChunkBounds | PTA_Web.py:58 | Every chunk holds 1 to 35 characters, and all but the last exactly 35. |
| Wrap.ChunkAt | PTA_Web.py:58 | The k-th chunk is exactly the slice `line[35k : 35k + 35]`. |
| Wrap.ChunksStep | PTA_Web.py:58 | The chunks from position i on are the slice `line[i:i+35]` followed by the chunks from i + 35 on. |
| Wrap.ChunkCount | PTA_Web.py:58 | A line of length L gives ceil(L / 35) chunks, so an empty line gives none. |
| Wrap.ChunkConcat | PTA_Web.py:58 | Concatenating a line's chunks in order reproduces the line exactly. |
| Wrap.WrapAllBounds | PTA_Web.py:57-58 | Every wrapped line of any list of source lines holds 1 to 35 characters. |
| Wrap.WrapAllAppend | PTA_Web.py:57-58 | Source order is kept: wrapping two runs of source lines gives the lines of the first run, then those of the second. |
| Wrap.WrapAllConcat | PTA_Web.py:57-58 | The wrapped lines, concatenated, are the source lines concatenated: no character is lost, added or moved. |
| Wrap.EmptyLineVanishes | PTA_Web.py:57-58 | An empty source line contributes no wrapped line: removing it changes nothing. |
| Text.FirstBreak | PTA_Web.py:57 | The position of the first line-boundary character, or the length when there is none; the character there is a boundary. |
| Text.FirstBreakFirst | PTA_Web.py:57 | No boundary character comes before the first one. |
| Text.FirstBreakIs | PTA_Web.py:57 | A boundary at n with none before it is the first boundary. |
| Text.BreakEnd | PTA_Web.py:57 | Where the next line starts after a boundary: two characters on exactly when they are CR LF, one character otherwise. |
| Text.BreakEndBreaks | PTA_Web.py:57 | Every character a boundary consumes is a boundary character. |
| Text.SplitLinesSpec | PTA_Web.py:57 | No line of `splitlines()` holds a boundary character, and the text has no lines exactly when it is empty. |
| Text.SplitAfterBreak | PTA_Web.py:57 | A boundary-free line followed by CR LF, or by one boundary character (a lone CR not followed by LF), is the first line, and splitting resumes right after the separator. |
| Text.JoinedStep | PTA_Web.py:57 | A written line and its separator in front of a text put that line in front of the text's split. |
| Text.SplitJoined | PTA_Web.py:57 | Round trip: boundary-free lines written with any separators split back into exactly those lines. The unterminated last line follows them when it is not empty, and a final separator adds no empty line. |
| Text.SplitExamples | PTA_Web.py:57 | `"a\r\nb"` and `"a\rb"` both split into `a` and `b`: CR LF is one boundary, a lone CR ends a line, and the last line needs no separator. |
| Text.ConcatSplitLines | PTA_Web.py:57 | The split lines, joined, give back every character of the text in order except the line boundaries. |
| Text.SingleLine | PTA_Web.py:57 | A non-empty text without boundaries is one line. |

## Left out

- The reportlab canvas and the PDF file. Drawing, text objects, font registration internals and PDF serialisation are not modelled. The file write is recorded as a final `Save` operation.
- The `mm` unit scaling. It is floating point. Coordinates are kept as whole millimetres, the unit of the source's cursor.
- The file system and font loading. Whether `msgothic.ttc` exists next to the script, and whether registering it raises, are the two boolean inputs of `GeneratePdf`.
- The Streamlit interface, session state, the SQLite table, the download button and date formatting with `strftime`. These are user interface and I/O around `generate_pdf`, not part of it.
- Field values are strings. The caller at PTA_Web.py:150 always builds the note from widget strings, so a missing field value is not modelled. The remarks value may be missing (`Option`) and is read as empty, as the source does.
- Remarks that run below the bottom of the page are not detected or moved to a new page, because the source has no such logic. The model draws them all into the single text object, as the source does.
- The text object's own line advance (15 pt leading) is recorded as a parameter of `DrawText`. Where each remarks line lands below the origin is left to the drawing library.
