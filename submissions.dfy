/**
 * One survey response: the record the `submissions` table holds, and the
 * normalisation that turns a posted form into the values stored in it.
 */
module Submissions {
  import opened Wrappers
  import opened MultiDict
  import Text

  /** Year, month and day, as a date parser could assemble them. */
  datatype DateParts = DateParts(year: nat, month: nat, day: nat)

  /** The dates the date type can represent (years 1 to 9999). */
  predicate ValidDate(d: DateParts) {
    1 <= d.year <= 9999 && 1 <= d.month <= 12 && 1 <= d.day <= 31
  }

  /**
   * A calendar date, as the `birth` column holds it. Parsing never produces
   * anything outside this range, so the parser's result type is this one.
   */
  type Date = d: DateParts | ValidDate(d) witness DateParts(1, 1, 1)

  /** The answers of one form post after normalisation, before the store adds the id and the time. */
  datatype Answers = Answers(
    name: string, email: string, tel: string, birth: Option<Date>, gender: string,
    hobbies: string, city: string, englishScore: string, source: string, feedback: string)

  /**
   * One row of the `submissions` table. `id` is the integer primary key and
   * `createdAt` the insertion time; every other column is nullable.
   */
  datatype Submission = Submission(
    id: nat, createdAt: int,
    name: Option<string>, email: Option<string>, tel: Option<string>, birth: Option<Date>,
    gender: Option<string>, hobbies: Option<string>, city: Option<string>,
    englishScore: Option<string>, source: Option<string>, feedback: Option<string>)

  /** The single-valued text fields of the form. */
  datatype TextField = Name | Email | Tel | Gender | City | EnglishScore | Source | Feedback

  /** The name a text field is posted under. */
  function FormName(f: TextField): string {
    match f
    case Name => "name"
    case Email => "email"
    case Tel => "tel"
    case Gender => "gender"
    case City => "city"
    case EnglishScore => "english_score"
    case Source => "source"
    case Feedback => "feedback"
  }

  /** The answer stored for a text field. */
  function TextAnswer(a: Answers, f: TextField): string {
    match f
    case Name => a.name
    case Email => a.email
    case Tel => a.tel
    case Gender => a.gender
    case City => a.city
    case EnglishScore => a.englishScore
    case Source => a.source
    case Feedback => a.feedback
  }

  /** `request.form.get(key) or ""`: the first value sent under `key`, `""` when none was sent. */
  function FieldOrEmpty(form: Pairs, key: string): (r: string)
    ensures Absent(form, key) ==> r == ""
    ensures forall i :: FirstAt(form, key, i) ==> r == form[i].1
  {
    assert forall i :: FirstAt(form, key, i) ==> Get(form, key) == Some(form[i].1) by {
      forall i | FirstAt(form, key, i) ensures Get(form, key) == Some(form[i].1) {
        GetAtFirst(form, key, i);
      }
    }
    Get(form, key).GetOr("")
  }

  /** `birth`: absent when the raw text is empty, otherwise whatever the date parser makes of it (absent on a parse error). */
  function ParseBirth(raw: string, parse: string -> Option<Date>): (r: Option<Date>)
    ensures r.None? <==> raw == "" || parse(raw).None?
    ensures r.Some? ==> r == parse(raw)
  {
    if raw == "" then None else parse(raw)
  }

  /**
   * The normalisation `submit` applies to a posted form. `parse` stands for
   * parsing with the pattern `%Y-%m-%d`, `None` meaning that it raised an error.
   */
  function Normalize(form: Pairs, parse: string -> Option<Date>): (a: Answers)
    // no `hobby` value gives the empty string
    ensures GetList(form, "hobby") == [] ==> a.hobbies == ""
    // the birth date is absent exactly when the raw text is empty or does not parse
    ensures var raw := FieldOrEmpty(form, "birth");
            (a.birth.None? <==> raw == "" || parse(raw).None?) && (a.birth.Some? ==> a.birth == parse(raw))
  {
    Answers(
      FieldOrEmpty(form, "name"), FieldOrEmpty(form, "email"), FieldOrEmpty(form, "tel"),
      ParseBirth(FieldOrEmpty(form, "birth"), parse), FieldOrEmpty(form, "gender"),
      Text.Join(",", GetList(form, "hobby")), FieldOrEmpty(form, "city"), FieldOrEmpty(form, "english_score"),
      FieldOrEmpty(form, "source"), FieldOrEmpty(form, "feedback"))
  }

  /**
   * Every single-valued text field is stored as the first value posted under its
   * name, and as the empty string when it was not posted at all.
   */
  lemma NormalizeTextField(form: Pairs, parse: string -> Option<Date>, f: TextField)
    ensures Absent(form, FormName(f)) ==> TextAnswer(Normalize(form, parse), f) == ""
    ensures forall i :: FirstAt(form, FormName(f), i) ==> TextAnswer(Normalize(form, parse), f) == form[i].1
  {
    var a := Normalize(form, parse);
    assert TextAnswer(a, f) == FieldOrEmpty(form, FormName(f));
  }

  /**
   * The stored `hobbies` text keeps every posted `hobby` value, in arrival order:
   * splitting it at commas gives them back, provided there is at least one and none
   * contains a comma itself.
   */
  lemma NormalizeHobbies(form: Pairs, parse: string -> Option<Date>)
    requires |GetList(form, "hobby")| >= 1
    requires forall j :: 0 <= j < |GetList(form, "hobby")| ==> ',' !in GetList(form, "hobby")[j]
    ensures Text.Split(',', Normalize(form, parse).hobbies) == GetList(form, "hobby")
  {
    Text.SplitJoin(',', GetList(form, "hobby"));
  }

  /** The row the store writes for normalised answers: every column set, none null. */
  function Stored(id: nat, createdAt: int, a: Answers): Submission {
    Submission(id, createdAt, Some(a.name), Some(a.email), Some(a.tel), a.birth, Some(a.gender),
               Some(a.hobbies), Some(a.city), Some(a.englishScore), Some(a.source), Some(a.feedback))
  }
}
