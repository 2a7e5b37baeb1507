/**
 * The skills dialog of a member: the list of skill drafts the dialog
 * edits, loaded from the member's skill documents when the dialog opens,
 * grown, shrunk and edited row by row, and turned into the request that
 * replaces the member's skills on save.
 *
 * Numbers typed into the dialog arrive already parsed (a text that is
 * not a number becomes 0); the dialog's rendering, its toasts and the
 * request itself are not part of the model.
 */
module SkillsEditor {
  import opened Common

  /**
   * A skill document as the skills query returns it. Each of the two
   * numbers may come under its snake_case or its camelCase name; `None` is
   * a missing or null value.
   */
  datatype SkillDoc = SkillDoc(
    name: string,
    category: string,
    experienceSnake: Option<real>,
    experienceCamel: Option<real>,
    proficiencySnake: Option<real>,
    proficiencyCamel: Option<real>)

  /** One editable row of the dialog. */
  datatype Draft = Draft(name: string, category: string, experience: real, proficiency: real)

  /** One skill of the save request, under the camelCase names the save hook takes. */
  datatype SkillInput = SkillInput(name: string, category: string, experienceYears: real, proficiencyScore: real)

  /** The row the add button appends. */
  const BlankDraft: Draft := Draft("", "Other", 0.0, 50.0)

  /** `a ?? b ?? 0`: the first value present, else 0 (a stored 0 is kept). */
  function Coalesce(a: Option<real>, b: Option<real>): (r: real)
    ensures a.Some? ==> r == a.value
    ensures a.None? && b.Some? ==> r == b.value
    ensures a.None? && b.None? ==> r == 0.0
  {
    match a
    case Some(x) => x
    case None => if b.Some? then b.value else 0.0
  }

  /**
   * The draft of one document: name and category as stored; each number
   * under its snake_case name when present, else under its camelCase
   * name, else 0.
   */
  function FromDoc(doc: SkillDoc): (r: Draft)
    ensures r.name == doc.name && r.category == doc.category
    ensures doc.experienceSnake.Some? ==> r.experience == doc.experienceSnake.value
    ensures doc.experienceSnake.None? && doc.experienceCamel.Some? ==> r.experience == doc.experienceCamel.value
    ensures doc.experienceSnake.None? && doc.experienceCamel.None? ==> r.experience == 0.0
    ensures doc.proficiencySnake.Some? ==> r.proficiency == doc.proficiencySnake.value
    ensures doc.proficiencySnake.None? && doc.proficiencyCamel.Some? ==> r.proficiency == doc.proficiencyCamel.value
    ensures doc.proficiencySnake.None? && doc.proficiencyCamel.None? ==> r.proficiency == 0.0
  {
    Draft(doc.name, doc.category,
      Coalesce(doc.experienceSnake, doc.experienceCamel),
      Coalesce(doc.proficiencySnake, doc.proficiencyCamel))
  }

  /** The drafts the dialog starts from: one per loaded document, in order; none while nothing is loaded. */
  function InitialDrafts(documents: Option<seq<SkillDoc>>): (r: seq<Draft>)
    ensures documents.None? ==> r == []
    ensures documents.Some? ==> |r| == |documents.value|
    ensures documents.Some? ==> forall i :: 0 <= i < |r| ==> r[i] == FromDoc(documents.value[i])
  {
    match documents
    case None => []
    case Some(docs) => seq(|docs|, i requires 0 <= i < |docs| => FromDoc(docs[i]))
  }

  /** One edit of a row's field, with the value the input produced. */
  datatype Edit =
    | SetName(name: string)
    | SetCategory(category: string)
    | SetExperience(experience: real)
    | SetProficiency(proficiency: real)

  /** A row after one edit: the edited field takes the value, every other field keeps its own. */
  function ApplyEdit(d: Draft, edit: Edit): (r: Draft)
    ensures r.name == (if edit.SetName? then edit.name else d.name)
    ensures r.category == (if edit.SetCategory? then edit.category else d.category)
    ensures r.experience == (if edit.SetExperience? then edit.experience else d.experience)
    ensures r.proficiency == (if edit.SetProficiency? then edit.proficiency else d.proficiency)
  {
    match edit
    case SetName(v) => d.(name := v)
    case SetCategory(v) => d.(category := v)
    case SetExperience(v) => d.(experience := v)
    case SetProficiency(v) => d.(proficiency := v)
  }

  /** A row is saved only when its name holds more than whitespace. */
  predicate Named(d: Draft)
  {
    Trim(d.name) != ""
  }

  /** The renaming of a row into the request's field names; the name is sent as typed, untrimmed. */
  function ToInput(d: Draft): SkillInput
  {
    SkillInput(d.name, d.category, d.experience, d.proficiency)
  }

  function Renamed(drafts: seq<Draft>): (r: seq<SkillInput>)
    ensures |r| == |drafts|
  {
    seq(|drafts|, i requires 0 <= i < |drafts| => ToInput(drafts[i]))
  }

  /**
   * What saving submits: the named rows, in order and renamed; nothing
   * (`None`) when no row is named.
   */
  function Submission(drafts: seq<Draft>): (r: Option<seq<SkillInput>>)
    ensures r.None? <==> forall i :: 0 <= i < |drafts| ==> !Named(drafts[i])
  {
    var valid := Filter(drafts, Named);
    assert valid != [] ==> valid[0] in drafts && Named(valid[0]);
    Submit(valid)
  }

  /** The request for the rows that survive the name check; an empty request is not sent. */
  function Submit(valid: seq<Draft>): Option<seq<SkillInput>>
  {
    if valid == [] then None else Some(Renamed(valid))
  }

  /** A submission holds one entry per named row and none for a blank one. */
  lemma SubmittedCount(drafts: seq<Draft>)
    requires Submission(drafts).Some?
    ensures |Submission(drafts).value| + |Filter(drafts, d => !Named(d))| == |drafts|
  {
    FilterPartition(drafts, Named, d => !Named(d));
  }

  /** Every named row is submitted, renamed. */
  lemma NamedRowsSubmitted(drafts: seq<Draft>, i: int)
    requires Submission(drafts).Some? && 0 <= i < |drafts| && Named(drafts[i])
    ensures ToInput(drafts[i]) in Submission(drafts).value
  {
    var valid := Filter(drafts, Named);
    assert drafts[i] in valid;
    var k :| 0 <= k < |valid| && valid[k] == drafts[i];
    assert Renamed(valid)[k] == ToInput(drafts[i]);
  }

  /** Every submitted entry is a named row, renamed. */
  lemma SubmittedAreNamedRows(drafts: seq<Draft>, k: int)
    requires Submission(drafts).Some? && 0 <= k < |Submission(drafts).value|
    ensures exists i :: 0 <= i < |drafts| && Named(drafts[i]) && Submission(drafts).value[k] == ToInput(drafts[i])
  {
    var valid := Filter(drafts, Named);
    assert valid[k] in drafts && Named(valid[k]);
    var i :| 0 <= i < |drafts| && drafts[i] == valid[k];
    assert Renamed(valid)[k] == ToInput(drafts[i]);
  }

  /** A row with a blank name is dropped wherever it stands, without disturbing the order of the others. */
  lemma {:induction false} BlankRowIgnored(before: seq<Draft>, blank: Draft, after: seq<Draft>)
    requires !Named(blank)
    ensures Submission(before + [blank] + after) == Submission(before + after)
  {
    FilterSkipsRejected(before, blank, after, Named);
  }

  /** An element the predicate rejects leaves the filtered sequence as it would be without it. */
  lemma {:induction false} FilterSkipsRejected<T>(before: seq<T>, blank: T, after: seq<T>, p: T -> bool)
    requires !p(blank)
    ensures Filter(before + [blank] + after, p) == Filter(before + after, p)
  {
    FilterAppend(before + [blank], after, p);
    FilterAppend(before, [blank], p);
    FilterAppend(before, after, p);
    assert Filter([blank], p) == [];
  }

  /** A freshly added row, never named, changes nothing in what saving submits. */
  lemma AddedRowNotSubmitted(drafts: seq<Draft>)
    ensures Submission(drafts + [BlankDraft]) == Submission(drafts)
  {
    TrimEmptyIffBlank(BlankDraft.name);
    FilterAppend(drafts, [BlankDraft], Named);
    assert Filter([BlankDraft], Named) == [];
    assert Filter(drafts + [BlankDraft], Named) == Filter(drafts, Named);
  }

  /** When every row is named, saving submits every row, in order. */
  lemma AllNamedAllSubmitted(drafts: seq<Draft>)
    requires drafts != [] && forall i :: 0 <= i < |drafts| ==> Named(drafts[i])
    ensures Submission(drafts) == Some(Renamed(drafts))
  {
    FilterAll(drafts, Named);
  }

  /** The state of the skills dialog: whether it is open, and the rows it edits. */
  class SkillsManager {
    var isOpen: bool
    var drafts: seq<Draft>

    /** A closed dialog without rows. */
    constructor()
      ensures !isOpen && drafts == []
    {
      isOpen := false;
      drafts := [];
    }

    /** Opening or closing the dialog; opening reloads the rows from the documents loaded so far. */
    method OpenChange(open: bool, documents: Option<seq<SkillDoc>>)
      modifies this
      ensures isOpen == open
      ensures drafts == if open then InitialDrafts(documents) else old(drafts)
    {
      isOpen := open;
      if open {
        drafts := InitialDrafts(documents);
      }
    }

    /** Appends one blank row and keeps the others. */
    method AddSkill()
      modifies this
      ensures drafts == old(drafts) + [BlankDraft]
      ensures isOpen == old(isOpen)
    {
      drafts := drafts + [BlankDraft];
    }

    /**
     * Removes the row at `index`, the rest keeping their order; any other
     * index leaves the rows as they are.
     */
    method RemoveSkill(index: int)
      modifies this
      ensures 0 <= index < |old(drafts)| ==>
        |drafts| == |old(drafts)| - 1 &&
        (forall j :: 0 <= j < index ==> drafts[j] == old(drafts)[j]) &&
        (forall j :: index <= j < |drafts| ==> drafts[j] == old(drafts)[j + 1]) &&
        multiset(drafts) + multiset{old(drafts)[index]} == multiset(old(drafts))
      ensures !(0 <= index < |old(drafts)|) ==> drafts == old(drafts)
      ensures isOpen == old(isOpen)
    {
      if 0 <= index < |drafts| {
        var rest := drafts[..index] + drafts[index + 1..];
        assert drafts == drafts[..index] + [drafts[index]] + drafts[index + 1..];
        drafts := rest;
      }
    }

    /** Edits one field of the row at `index`; the other rows, and the number of rows, stay. */
    method UpdateSkill(index: nat, edit: Edit)
      requires index < |drafts|
      modifies this
      ensures |drafts| == |old(drafts)|
      ensures drafts[index] == ApplyEdit(old(drafts)[index], edit)
      ensures forall j :: 0 <= j < |drafts| && j != index ==> drafts[j] == old(drafts)[j]
      ensures isOpen == old(isOpen)
    {
      drafts := drafts[index := ApplyEdit(drafts[index], edit)];
    }
  }
}
