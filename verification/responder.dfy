/** The Responder of responder.js: streams one JSON response to a sink, either
    an array of rows (when the first call is `write`) or an object whose
    members are added with `addSection`, each holding a value or an array of
    rows. The sink is the list of chunks written to it and whether it has been
    ended; `JSON.stringify` is applied by the caller, who passes the JSON text.

    A ghost document records what has been streamed; the class invariant ties
    the chunks written to the text of that document, and the lemmas show that
    the text after `end()` is the JSON text of the document. */
module Responder {
  import opened Text
  import opened Wrappers
  import opened JsValues

  /** A member of an object response: a value, or an array of rows. */
  datatype Section = ValueSection(name: string, json: string) | RowSection(name: string, rows: seq<string>)

  /** What has been streamed: nothing yet, an array of rows, or an object. */
  datatype Doc = Unstarted | ArrayDoc(rows: seq<string>) | ObjectDoc(sections: seq<Section>)

  predicate WellFormed(doc: Doc)
  {
    doc.ObjectDoc? ==> doc.sections != []
  }

  function Last<T>(s: seq<T>): T
    requires s != []
  {
    s[|s| - 1]
  }

  /** The chunks a sink has received, as one text. */
  function Concat(chunks: seq<string>): string
  {
    if chunks == [] then "" else Concat(chunks[..|chunks| - 1]) + chunks[|chunks| - 1]
  }

  // ----- the text of a document -----

  /** `"name": ` */
  function Header(name: string): string
  {
    "\"" + name + "\": "
  }

  /** A section as far as it is written while it is the last one: the value, or
      `[` and the rows so far. */
  function Opened(s: Section): string
  {
    match s
    case ValueSection(n, j) => Header(n) + j
    case RowSection(n, rows) => (Header(n) + "[") + Join(rows, ",")
  }

  /** What closes a section: `]` after rows, nothing after a value. */
  function CloseSection(s: Section): string
  {
    if s.RowSection? then "]" else ""
  }

  /** The text before the last section: `{`, then every earlier section closed and
      followed by a comma. */
  function Lead(secs: seq<Section>): string
    requires secs != []
  {
    if |secs| == 1 then "{"
    else
      var init := secs[..|secs| - 1];
      Lead(init) + Opened(Last(init)) + CloseSection(Last(init)) + ","
  }

  /** The text written while the response is open. */
  function Open(doc: Doc): string
    requires WellFormed(doc)
  {
    match doc
    case Unstarted => ""
    case ArrayDoc(rows) => "[" + Join(rows, ",")
    case ObjectDoc(secs) => Lead(secs) + Opened(Last(secs))
  }

  /** The text written once the response has been ended. */
  function Closed(doc: Doc): string
    requires WellFormed(doc)
  {
    match doc
    case Unstarted => "[]"
    case ArrayDoc(rows) => Open(doc) + "]"
    case ObjectDoc(secs) => Open(doc) + CloseSection(Last(secs)) + "}"
  }

  /** The rows of the section rows go to next, if any. */
  function OpenRows(doc: Doc): seq<string>
    requires WellFormed(doc)
  {
    match doc
    case Unstarted => []
    case ArrayDoc(rows) => rows
    case ObjectDoc(secs) => if Last(secs).RowSection? then Last(secs).rows else []
  }

  /** Whether rows can be added: an array, or an object whose last section holds rows. */
  predicate TakesRows(doc: Doc)
    requires WellFormed(doc)
  {
    doc.ArrayDoc? || (doc.ObjectDoc? && Last(doc.sections).RowSection?)
  }

  /** The document with one more row in its open row section; a document not
      started yet becomes an array. */
  function AddRow(doc: Doc, row: string): (d: Doc)
    requires WellFormed(doc) && (doc.Unstarted? || TakesRows(doc))
    ensures WellFormed(d) && TakesRows(d) && OpenRows(d) == OpenRows(doc) + [row]
  {
    match doc
    case Unstarted => ArrayDoc([row])
    case ArrayDoc(rows) => ArrayDoc(rows + [row])
    case ObjectDoc(secs) =>
      var s := Last(secs);
      ObjectDoc(secs[..|secs| - 1] + [RowSection(s.name, s.rows + [row])])
  }

  /** The sections of an object document, none for any other. */
  function Sections(doc: Doc): seq<Section>
  {
    if doc.ObjectDoc? then doc.sections else []
  }

  /** The section addSection(name, value) opens; `None` is an undefined value. */
  function NewSection(name: string, value: Option<string>): Section
  {
    if value.Some? then ValueSection(name, value.value) else RowSection(name, [])
  }

  // ----- the JSON text of a document -----

  /** A member of the object as JSON: `"name": value` or `"name": [rows]`. */
  function Member(s: Section): string
  {
    Opened(s) + CloseSection(s)
  }

  function Members(secs: seq<Section>): (ms: seq<string>)
    ensures |ms| == |secs|
  {
    if secs == [] then [] else Members(secs[..|secs| - 1]) + [Member(Last(secs))]
  }

  /** The JSON text of a document: `[]` when nothing was written, the rows in
      brackets, or the members in braces. */
  function Json(doc: Doc): string
  {
    match doc
    case Unstarted => "[]"
    case ArrayDoc(rows) => "[" + Join(rows, ",") + "]"
    case ObjectDoc(secs) => "{" + Join(Members(secs), ",") + "}"
  }

  /** What the response holds after end() is the JSON text of what was streamed. */
  lemma ClosedIsJson(doc: Doc)
    requires WellFormed(doc)
    ensures Closed(doc) == Json(doc)
  {
    if doc.ObjectDoc? {
      LeadJoin(doc.sections);
    }
  }

  /** The sections written so far, the last one closed, are `{` and the members
      joined with commas. */
  lemma {:induction false} LeadJoin(secs: seq<Section>)
    requires secs != []
    ensures Lead(secs) + Opened(Last(secs)) + CloseSection(Last(secs)) == "{" + Join(Members(secs), ",")
  {
    var s := Last(secs);
    if |secs| == 1 {
      assert secs[..0] == [];
      assert Members(secs) == [Member(s)];
    } else {
      var init := secs[..|secs| - 1];
      assert secs == init + [s];
      LeadJoin(init);
      var jm := Join(Members(init), ",");
      assert Lead(secs) == ("{" + jm) + ",";
      assert Members(secs) == Members(init) + [Member(s)];
      JoinAppend(Members(init), Member(s), ",");
      Assoc5("{", jm, ",", Opened(s), CloseSection(s));
    }
  }

  lemma Assoc3(a: string, b: string, c: string)
    ensures a + (b + c) == (a + b) + c
  {
  }

  lemma Assoc5(a: string, b: string, c: string, d: string, e: string)
    ensures a + ((b + c) + (d + e)) == (((a + b) + c) + d) + e
  {
  }

  lemma ConcatAppend(chunks: seq<string>, c: string)
    ensures Concat(chunks + [c]) == Concat(chunks) + c
  {
    assert (chunks + [c])[..|chunks|] == chunks;
  }

  /** The chunks write(row) sends after the open text: `[` for the first row of
      a new array, a comma before every row but the first, and the row. */
  function RowChunksFor(first: bool, comma: bool, row: string): seq<string>
  {
    (if first then ["["] else []) + (if comma then [","] else []) + [row]
  }

  /** The same, for a document. */
  function RowChunks(doc: Doc, row: string): seq<string>
    requires WellFormed(doc)
  {
    RowChunksFor(doc.Unstarted?, OpenRows(doc) != [], row)
  }

  /** A row added to a document extends its open text by exactly those chunks. */
  lemma OpenAddRow(doc: Doc, row: string)
    requires WellFormed(doc) && (doc.Unstarted? || TakesRows(doc))
    ensures Open(AddRow(doc, row)) == Concat([Open(doc)] + RowChunks(doc, row))
  {
    var o := Open(doc);
    match doc
    case Unstarted =>
      assert [o] + RowChunks(doc, row) == [o, "[", row];
      ConcatThree(o, "[", row);
      assert Join([row], ",") == row;
    case ArrayDoc(rows) =>
      ArrayAddRow(rows, row);
    case ObjectDoc(secs) =>
      var s := Last(secs);
      var s' := RowSection(s.name, s.rows + [row]);
      LeadIgnoresLast(secs, s');
      SectionAddRow(Lead(secs), s.name, s.rows, row);
      assert AddRow(doc, row) == ObjectDoc(secs[..|secs| - 1] + [s']);
      assert Last(secs[..|secs| - 1] + [s']) == s';
      assert o == Lead(secs) + ((Header(s.name) + "[") + Join(s.rows, ","));
      var comma := if s.rows != [] then [","] else [];
      assert RowChunks(doc, row) == comma + [row];
      assert [o] + RowChunks(doc, row) == [o] + comma + [row];
  }

  lemma ArrayAddRow(rows: seq<string>, row: string)
    ensures var doc := ArrayDoc(rows);
      Open(ArrayDoc(rows + [row])) == Concat([Open(doc)] + RowChunks(doc, row))
  {
    var doc := ArrayDoc(rows);
    var o := Open(doc);
    var j := Join(rows, ",");
    if rows == [] {
      assert [o] + RowChunks(doc, row) == [o, row];
      ConcatTwo(o, row);
      assert rows + [row] == [row];
      assert Join([row], ",") == row && j == "";
      assert "[" + j == "[";
    } else {
      assert [o] + RowChunks(doc, row) == [o, ",", row];
      ConcatThree(o, ",", row);
      JoinAppend(rows, row, ",");
      AppendText("", "[", j, row);
    }
  }

  /** A row added to the last, row-holding section of an object after the text `lead`. */
  lemma SectionAddRow(lead: string, name: string, rows: seq<string>, row: string)
    ensures var o := lead + ((Header(name) + "[") + Join(rows, ","));
      lead + ((Header(name) + "[") + Join(rows + [row], ",")) == Concat([o] + (if rows != [] then [","] else []) + [row])
  {
    var p := Header(name) + "[";
    var j := Join(rows, ",");
    var o := lead + (p + j);
    if rows == [] {
      assert [o] + [] + [row] == [o, row];
      ConcatTwo(o, row);
      assert rows + [row] == [row];
      assert Join([row], ",") == row && j == "";
      assert p + j == p;
      Assoc3(lead, p, row);
    } else {
      assert [o] + [","] + [row] == [o, ",", row];
      ConcatThree(o, ",", row);
      JoinAppend(rows, row, ",");
      AppendText(lead, p, j, row);
    }
  }

  lemma AppendText(lead: string, p: string, j: string, row: string)
    ensures lead + (p + ((j + ",") + row)) == ((lead + (p + j)) + ",") + row
  {
  }

  /** The text before the last section does not depend on the last section. */
  lemma LeadIgnoresLast(secs: seq<Section>, s': Section)
    requires secs != []
    ensures Lead(secs[..|secs| - 1] + [s']) == Lead(secs)
  {
    var init := secs[..|secs| - 1];
    assert (init + [s'])[..|init|] == init;
  }

  /** The chunks addSection(name, value) sends: `{` and the header for the first
      section, otherwise `]` if rows were open, a comma and the header; then the
      value, or `[` to open rows. */
  function SectionChunksFor(first: bool, rowsOpen: bool, name: string, value: Option<string>): seq<string>
  {
    (if first then ["{" + Header(name)] else (if rowsOpen then ["]"] else []) + ["," + Header(name)])
    + [if value.Some? then value.value else "["]
  }

  /** The same, for a document. */
  function SectionChunks(doc: Doc, name: string, value: Option<string>): seq<string>
    requires WellFormed(doc)
  {
    SectionChunksFor(doc.Unstarted?, TakesRows(doc), name, value)
  }

  /** The document after a new section: an object whose last section takes rows
      exactly when no value was given, with no rows yet. */
  lemma NewSectionFacts(doc: Doc, name: string, value: Option<string>)
    requires WellFormed(doc) && !doc.ArrayDoc?
    ensures var d := ObjectDoc(Sections(doc) + [NewSection(name, value)]);
      WellFormed(d) && (TakesRows(d) <==> value.None?) && OpenRows(d) == []
  {
  }

  /** The response flags describe a document, and the sink holds its text. */
  ghost predicate Describes(written: seq<string>, ended: bool, doneFirstSection: bool, isArray: bool,
                            inSection: bool, doneFirstRow: bool, doc: Doc)
  {
    WellFormed(doc)
    && (doneFirstSection <==> !doc.Unstarted?)
    && (isArray <==> doc.ArrayDoc?)
    && (inSection <==> TakesRows(doc))
    && (doneFirstRow <==> OpenRows(doc) != [])
    && Concat(written) == (if ended then Closed(doc) else Open(doc))
  }

  /** addSection keeps the sink and the flags in step with the document. */
  lemma AddSectionKeeps(written: seq<string>, doneFirstSection: bool, inSection: bool, doneFirstRow: bool,
                        doc: Doc, name: string, value: Option<string>)
    requires Describes(written, false, doneFirstSection, false, inSection, doneFirstRow, doc)
    ensures Describes(written + SectionChunksFor(!doneFirstSection, inSection, name, value), false, true, false,
                      value.None?, false, ObjectDoc(Sections(doc) + [NewSection(name, value)]))
  {
    AddSectionText(written, doc, name, value);
    NewSectionFacts(doc, name, value);
  }

  /** write keeps the sink and the flags in step with the document. */
  lemma AddRowKeeps(written: seq<string>, doneFirstSection: bool, isArray: bool, inSection: bool,
                    doneFirstRow: bool, doc: Doc, row: string)
    requires Describes(written, false, doneFirstSection, isArray, inSection, doneFirstRow, doc)
    requires !doneFirstSection || inSection
    ensures Describes(written + RowChunksFor(!doneFirstSection, doneFirstRow, row), false, true,
                      isArray || !doneFirstSection, true, true, AddRow(doc, row))
  {
    OpenAddRow(doc, row);
    ConcatOfList(written, RowChunks(doc, row), Open(doc));
  }

  /** end keeps the sink in step with the document, and the sink then holds its JSON text. */
  lemma EndKeeps(written: seq<string>, doneFirstSection: bool, isArray: bool, inSection: bool,
                 doneFirstRow: bool, doc: Doc)
    requires Describes(written, false, doneFirstSection, isArray, inSection, doneFirstRow, doc)
    ensures var w := written + ClosingFor(inSection, isArray, doneFirstSection);
      Describes(w, true, doneFirstSection, isArray, inSection, doneFirstRow, doc) && Concat(w) == Json(doc)
  {
    ConcatOfList(written, Closing(doc), Open(doc));
    ClosingChunks(doc);
    ClosedIsJson(doc);
  }

  /** A new section extends the open text of a document by exactly those chunks. */
  lemma OpenAddSection(doc: Doc, name: string, value: Option<string>)
    requires WellFormed(doc) && !doc.ArrayDoc?
    ensures var d := ObjectDoc(Sections(doc) + [NewSection(name, value)]);
      WellFormed(d) && Open(d) == Concat([Open(doc)] + SectionChunks(doc, name, value))
  {
    var s := NewSection(name, value);
    var v := if value.Some? then value.value else "[";
    var h := Header(name);
    var o := Open(doc);
    assert Opened(s) == h + v by {
      if value.None? {
        assert Join([], ",") == "";
        assert (h + "[") + "" == h + "[";
      }
    }
    match doc
    case Unstarted =>
      assert Sections(doc) + [s] == [s];
      assert [o] + SectionChunks(doc, name, value) == [o, "{" + h, v];
      ConcatThree(o, "{" + h, v);
      assert o + ("{" + h) == "{" + h;
      Assoc3("{", h, v);
    case ObjectDoc(secs) =>
      var last := Last(secs);
      assert (secs + [s])[..|secs|] == secs;
      assert Last(secs + [s]) == s;
      var close := CloseSection(last);
      assert Lead(secs + [s]) == (o + close) + ",";
      if TakesRows(doc) {
        assert [o] + SectionChunks(doc, name, value) == [o, "]", "," + h, v];
        ConcatFour(o, "]", "," + h, v);
      } else {
        assert [o] + SectionChunks(doc, name, value) == [o, "," + h, v];
        ConcatThree(o, "," + h, v);
        assert o + close == o;
      }
      SectionText(o + close, h, v);
  }

  /** The sink's text after addSection, when it held the open text before. */
  lemma AddSectionText(before: seq<string>, doc: Doc, name: string, value: Option<string>)
    requires WellFormed(doc) && !doc.ArrayDoc? && Concat(before) == Open(doc)
    ensures Concat(before + SectionChunks(doc, name, value)) == Open(ObjectDoc(Sections(doc) + [NewSection(name, value)]))
  {
    ConcatOfList(before, SectionChunks(doc, name, value), Open(doc));
    OpenAddSection(doc, name, value);
  }

  lemma SectionText(x: string, h: string, v: string)
    ensures (x + ",") + (h + v) == (x + ("," + h)) + v
  {
  }

  lemma ConcatOne(a: string)
    ensures Concat([a]) == a
  {
    assert [a][..0] == [];
    assert Concat([a]) == Concat([]) + a;
  }

  lemma ConcatThree(a: string, b: string, c: string)
    ensures Concat([a, b, c]) == (a + b) + c
  {
    assert [a, b, c][..2] == [a, b];
    ConcatTwo(a, b);
  }

  lemma ConcatFour(a: string, b: string, c: string, d: string)
    ensures Concat([a, b, c, d]) == ((a + b) + c) + d
  {
    assert [a, b, c, d][..3] == [a, b, c];
    ConcatThree(a, b, c);
  }

  /** What a write returns: a resolved promise, the promise of the next drain
      (numbered by creation), or a rejected promise. */
  datatype WriteOutcome = Resolved | Drain(promise: nat) | Rejected

  const ArraySectionError: Thrown := Error("Cannot add section to an array")
  const ValueRowError: Thrown := Error("Cannot add rows after a value section without a new section header")

  class Responder {
    // the sink: the chunks written to it, and whether it has been ended
    var written: seq<string>
    var sinkEnded: bool
    var doneFirstRow: bool
    var doneFirstSection: bool
    var ended: bool
    var isArray: bool
    var inSection: bool
    var awaitingDrain: bool
    // the drain promise handed out while awaiting a drain: 0 before the first
    var drainPromise: nat
    ghost var doc: Doc

    /** The flags describe the document, and the sink holds its text. */
    ghost predicate Valid()
      reads this
    {
      Describes(written, ended, doneFirstSection, isArray, inSection, doneFirstRow, doc)
      && (sinkEnded <==> ended)
      && (awaitingDrain ==> drainPromise > 0)
    }

    constructor()
      ensures Valid() && doc == Unstarted && written == [] && !ended
      ensures !doneFirstRow && !doneFirstSection && !isArray && !inSection && !awaitingDrain
    {
      written := [];
      sinkEnded := false;
      doneFirstRow := false;
      doneFirstSection := false;
      ended := false;
      isArray := false;
      inSection := false;
      awaitingDrain := false;
      drainPromise := 0;
      doc := Unstarted;
    }

    /** addSection(name, value): opens a new member of the object response, after
        closing an open row section. Throws for an array response; does nothing
        once ended. */
    method AddSection(name: string, value: Option<string>) returns (thrown: Option<Thrown>)
      requires Valid()
      modifies this
      ensures Valid()
      ensures old(ended) ==> thrown.None? && unchanged(this)
      ensures !old(ended) && old(isArray) ==> thrown == Some(ArraySectionError) && unchanged(this)
      ensures !old(ended) && !old(isArray) ==>
        thrown.None?
        && doc == ObjectDoc(Sections(old(doc)) + [NewSection(name, value)])
        && written == old(written) + SectionChunksFor(!old(doneFirstSection), old(inSection), name, value)
        && inSection == value.None? && doneFirstSection && !doneFirstRow
        && !ended && !isArray && awaitingDrain == old(awaitingDrain) && drainPromise == old(drainPromise)
    {
      thrown := None;
      if !ended {
        if isArray {
          return Some(ArraySectionError);
        }
        AddSectionKeeps(written, doneFirstSection, inSection, doneFirstRow, doc, name, value);
        written, inSection, doneFirstSection, doneFirstRow, doc :=
          written + SectionChunksFor(!doneFirstSection, inSection, name, value), value.None?,
          true, false, ObjectDoc(Sections(doc) + [NewSection(name, value)]);
      }
    }

    /** write(row): appends a row, opening an array response first when nothing
        has been written. A full sink answers false, and the caller then gets the
        promise of the next drain, created only if none is outstanding. */
    method Write(row: string, reply: bool) returns (r: Result<WriteOutcome, Thrown>)
      requires Valid()
      modifies this
      ensures Valid()
      ensures old(ended) ==> r == Ok(Rejected) && unchanged(this)
      ensures !old(ended) && old(doneFirstSection) && !old(inSection) ==> r == Fail(ValueRowError) && unchanged(this)
      ensures !old(ended) && (!old(doneFirstSection) || old(inSection)) ==>
        doc == AddRow(old(doc), row)
        && written == old(written) + RowChunksFor(!old(doneFirstSection), old(doneFirstRow), row)
        && doneFirstSection && inSection && doneFirstRow && !ended
        && isArray == (old(isArray) || !old(doneFirstSection))
        && (reply ==> r == Ok(Resolved) && awaitingDrain == old(awaitingDrain) && drainPromise == old(drainPromise))
        && (!reply ==> awaitingDrain && r == Ok(Drain(drainPromise))
                       && drainPromise == if old(awaitingDrain) then old(drainPromise) else old(drainPromise) + 1)
    {
      if ended {
        return Ok(Rejected);
      }
      if doneFirstSection && !inSection {
        return Fail(ValueRowError);
      }
      AppendRow(row);
      if reply {
        return Ok(Resolved);
      }
      var p := NextDrain();
      r := Ok(Drain(p));
    }

    /** The sink part of write(row): opens an array response when nothing has
        been written, then sends a comma before every row but the first, and the row. */
    method AppendRow(row: string)
      requires Valid() && !ended && (!doneFirstSection || inSection)
      modifies this
      ensures Valid()
      ensures doc == AddRow(old(doc), row)
      ensures written == old(written) + RowChunksFor(!old(doneFirstSection), old(doneFirstRow), row)
      ensures doneFirstSection && inSection && doneFirstRow && !ended && sinkEnded == old(sinkEnded)
      ensures isArray == (old(isArray) || !old(doneFirstSection))
      ensures awaitingDrain == old(awaitingDrain) && drainPromise == old(drainPromise)
    {
      AddRowKeeps(written, doneFirstSection, isArray, inSection, doneFirstRow, doc, row);
      written, isArray, doc, doneFirstSection, inSection, doneFirstRow :=
        written + RowChunksFor(!doneFirstSection, doneFirstRow, row), isArray || !doneFirstSection,
        AddRow(doc, row), true, true, true;
    }

    /** The promise of the next drain, created only if none is outstanding. */
    method NextDrain() returns (p: nat)
      requires Valid()
      modifies this
      ensures Valid() && awaitingDrain && p == drainPromise
      ensures drainPromise == if old(awaitingDrain) then old(drainPromise) else old(drainPromise) + 1
      ensures written == old(written) && doc == old(doc) && ended == old(ended) && sinkEnded == old(sinkEnded)
      ensures doneFirstRow == old(doneFirstRow) && doneFirstSection == old(doneFirstSection)
      ensures isArray == old(isArray) && inSection == old(inSection)
    {
      if !awaitingDrain {
        awaitingDrain := true;
        drainPromise := drainPromise + 1;
      }
      p := drainPromise;
    }

    /** The sink's 'drain' event, which settles the outstanding drain promise. */
    method Drained()
      requires Valid()
      modifies this
      ensures Valid() && !awaitingDrain
      ensures written == old(written) && doc == old(doc) && ended == old(ended) && drainPromise == old(drainPromise)
    {
      awaitingDrain := false;
    }

    /** end(): closes an open row section and ends the sink with `}` for an object,
        `[]` when nothing was written, or nothing more for an array. A second call
        does nothing. */
    method End()
      requires Valid()
      modifies this
      ensures Valid() && ended && sinkEnded && Concat(written) == Json(doc)
      ensures awaitingDrain == old(awaitingDrain) && drainPromise == old(drainPromise)
      ensures old(ended) ==> unchanged(this)
      ensures !old(ended) ==>
        doc == old(doc)
        && written == old(written) + ClosingFor(old(inSection), old(isArray), old(doneFirstSection))
    {
      if !ended {
        EndKeeps(written, doneFirstSection, isArray, inSection, doneFirstRow, doc);
        written := written + ClosingFor(inSection, isArray, doneFirstSection);
        sinkEnded := true;
        ended := true;
      } else {
        ClosedIsJson(doc);
      }
    }
  }

  /** The text of chunks appended after a text, as the whole of those chunks. */
  lemma {:induction false} ConcatOfList(before: seq<string>, more: seq<string>, text: string)
    requires Concat(before) == text
    ensures Concat(before + more) == Concat([text] + more)
    decreases |more|
  {
    if more == [] {
      assert before + more == before && [text] + more == [text];
      assert [text][..0] == [];
    } else {
      var n := |more| - 1;
      assert (before + more)[..|before| + n] == before + more[..n];
      assert ([text] + more)[..1 + n] == [text] + more[..n];
      ConcatOfList(before, more[..n], text);
    }
  }

  /** What end() writes: `]` to close open rows, then `}` for an object or `[]`
      when nothing was written; an array needs nothing more. */
  function ClosingFor(inSection: bool, isArray: bool, doneFirstSection: bool): seq<string>
  {
    (if inSection then ["]"] else []) + (if !isArray then [if doneFirstSection then "}" else "[]"] else [])
  }

  /** The same, for a document. */
  function Closing(doc: Doc): seq<string>
    requires WellFormed(doc)
  {
    ClosingFor(TakesRows(doc), doc.ArrayDoc?, !doc.Unstarted?)
  }

  lemma ClosingChunks(doc: Doc)
    requires WellFormed(doc)
    ensures Concat([Open(doc)] + Closing(doc)) == Closed(doc)
  {
    var o := Open(doc);
    match doc
    case Unstarted =>
      assert [o] + Closing(doc) == [o, "[]"];
      ConcatTwo(o, "[]");
    case ArrayDoc(_) =>
      assert [o] + Closing(doc) == [o, "]"];
      ConcatTwo(o, "]");
    case ObjectDoc(secs) =>
      if TakesRows(doc) {
        assert [o] + Closing(doc) == [o, "]", "}"];
        ConcatThree(o, "]", "}");
      } else {
        assert [o] + Closing(doc) == [o, "}"];
        ConcatTwo(o, "}");
        assert o + CloseSection(Last(secs)) == o;
      }
  }

  lemma ConcatTwo(a: string, b: string)
    ensures Concat([a, b]) == a + b
  {
    assert [a, b][..1] == [a];
    ConcatOne(a);
  }
}
