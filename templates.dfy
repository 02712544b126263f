/**
 * Template selection for the survey form: the first name of a fixed, ordered
 * candidate list that exists in the template folder, or a 500 abort that lists
 * the candidates and the folder's files. The folder is passed in as a value, so
 * every request sees the folder as it is at that moment.
 */
module Templates {
  import opened Wrappers

  /**
   * The template folder as the request sees it: `Missing` when it does not exist;
   * otherwise every name that exists in it (`entries`, files and sub-folders alike,
   * which is what an existence probe answers to) and the names of its regular files
   * (`files`, which is what the diagnostic listing shows).
   */
  datatype FolderState = Missing | Present(entries: set<string>, files: set<string>)

  /** Every regular file of a folder is an entry of it. */
  type Folder = f: FolderState | f.Present? ==> f.files <= f.entries witness Missing

  /** Whether `folder / name` exists. */
  predicate Exists(folder: Folder, name: string) {
    folder.Present? && name in folder.entries
  }

  /** The files listed in the abort message: none when the folder is missing. */
  function FolderFiles(folder: Folder): set<string> {
    if folder.Present? then folder.files else {}
  }

  /** The form template names, tried in this order. */
  const TemplateCandidates: seq<string> := ["form.html", "from.html", "4.html", "表單.html", "index.html"]

  /** The outcome of a pick: a template name, or the 500 abort with its diagnostic payload. */
  datatype Picked =
    | Template(name: string)
    | NoTemplateFound(candidates: seq<string>, existing: set<string>)

  /** The position of the first candidate that exists, if any does. */
  function FirstExisting(candidates: seq<string>, folder: Folder): (r: Option<nat>)
    ensures r.Some? ==> r.value < |candidates| && Exists(folder, candidates[r.value])
    ensures r.Some? ==> forall j :: 0 <= j < r.value ==> !Exists(folder, candidates[j])
    ensures r.None? <==> forall j :: 0 <= j < |candidates| ==> !Exists(folder, candidates[j])
  {
    if candidates == [] then None
    else if Exists(folder, candidates[0]) then Some(0)
    else
      match FirstExisting(candidates[1..], folder)
      case None => None
      case Some(k) => Some(k + 1)
  }

  /**
   * `pick_template`: scan the candidates in order and return the first that exists;
   * when none does, abort with the full candidate list and the folder's files.
   */
  method PickTemplate(folder: Folder) returns (r: Picked)
    ensures r.Template? <==> exists j :: 0 <= j < |TemplateCandidates| && Exists(folder, TemplateCandidates[j])
    ensures r.Template? ==> exists i :: 0 <= i < |TemplateCandidates| && TemplateCandidates[i] == r.name
                              && Exists(folder, r.name)
                              && forall j :: 0 <= j < i ==> !Exists(folder, TemplateCandidates[j])
    ensures r.NoTemplateFound? ==> r == NoTemplateFound(TemplateCandidates, FolderFiles(folder))
    ensures r == match FirstExisting(TemplateCandidates, folder)
                 case Some(i) => Template(TemplateCandidates[i])
                 case None => NoTemplateFound(TemplateCandidates, FolderFiles(folder))
  {
    for i := 0 to |TemplateCandidates|
      invariant forall j :: 0 <= j < i ==> !Exists(folder, TemplateCandidates[j])
    {
      var name := TemplateCandidates[i];
      if Exists(folder, name) {
        FirstExistingIsFirst(TemplateCandidates, folder, i);
        return Template(name);
      }
    }
    return NoTemplateFound(TemplateCandidates, FolderFiles(folder));
  }

  /** Fallback: with two candidates and only the second present, the second is chosen. */
  lemma SecondCandidateChosen(first: string, second: string, folder: Folder)
    requires !Exists(folder, first) && Exists(folder, second)
    ensures FirstExisting([first, second], folder) == Some(1)
  {
  }

  /** With only `from.html` in the folder, the form is rendered from `from.html`. */
  lemma OnlyFromHtml(files: set<string>)
    requires files == {"from.html"}
    ensures FirstExisting(TemplateCandidates, Present(files, files)) == Some(1)
    ensures TemplateCandidates[1] == "from.html"
  {
    FirstExistingIsFirst(TemplateCandidates, Present(files, files), 1);
  }

  /** `FirstExisting` is determined by the first-existing property: any first existing candidate is its answer. */
  lemma {:induction false} FirstExistingIsFirst(candidates: seq<string>, folder: Folder, i: nat)
    requires i < |candidates| && Exists(folder, candidates[i])
    requires forall j :: 0 <= j < i ==> !Exists(folder, candidates[j])
    ensures FirstExisting(candidates, folder) == Some(i)
  {
    if i > 0 {
      assert forall j :: 0 <= j < i - 1 ==> candidates[1..][j] == candidates[j + 1];
      FirstExistingIsFirst(candidates[1..], folder, i - 1);
    }
  }
}
