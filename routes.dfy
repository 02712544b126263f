/**
 * The two request handlers that carry decisions: `submit`, which normalises a
 * posted form and appends one row, and `admin`, which checks the shared key and
 * then shows the listing through `admin.html` or the built-in table.
 */
module Routes {
  import opened Wrappers
  import opened MultiDict
  import opened Submissions
  import opened Store
  import opened Templates
  import Render

  /** The key used when the `ADMIN_KEY` environment variable is not set. */
  const DefaultAdminKey: string := "changeme"

  /** The configured admin key: the environment's value when it is set (even to `""`), the default otherwise. */
  function AdminKeyFrom(env: Option<string>): (key: string)
    ensures env.None? ==> key == DefaultAdminKey
    ensures env.Some? ==> key == env.value
  {
    env.GetOr(DefaultAdminKey)
  }

  /** The key the caller supplied: the first `key` query parameter, `""` when there is none. */
  function SuppliedKey(args: Pairs): (key: string)
    ensures Absent(args, "key") ==> key == ""
    ensures forall i :: FirstAt(args, "key", i) ==> key == args[i].1
  {
    assert forall i :: FirstAt(args, "key", i) ==> Get(args, "key") == Some(args[i].1) by {
      forall i | FirstAt(args, "key", i) ensures Get(args, "key") == Some(args[i].1) {
        GetAtFirst(args, "key", i);
      }
    }
    Get(args, "key").GetOr("")
  }

  /** What the admin route answers. */
  datatype AdminPage =
    | Forbidden(status: nat, description: string)
    | Delegated(template: string, rows: seq<Submission>)
    | BuiltIn(tableBody: string)

  const AdminTemplate: string := "admin.html"

  /**
   * `admin`: refuse with 403 unless the supplied key equals the configured one
   * exactly; otherwise read every row newest first and hand them to `admin.html`
   * when that template exists, or render the built-in table.
   */
  method Admin(store: SubmissionStore, args: Pairs, adminKey: string, folder: Folder, timeText: int -> string)
    returns (page: AdminPage)
    ensures page.Forbidden? <==> SuppliedKey(args) != adminKey
    ensures page.Forbidden? ==> page == Forbidden(403, "Forbidden: wrong key")
    ensures page.Delegated? <==> SuppliedKey(args) == adminKey && Exists(folder, AdminTemplate)
    ensures page.Delegated? ==> page == Delegated(AdminTemplate, Listing(store.records))
    ensures page.BuiltIn? ==> page == BuiltIn(Render.TableBody(Listing(store.records), timeText))
  {
    var key := SuppliedKey(args);
    if key != adminKey {
      return Forbidden(403, "Forbidden: wrong key");
    }
    var rows := Listing(store.records);
    if Exists(folder, AdminTemplate) {
      return Delegated(AdminTemplate, rows);
    }
    return BuiltIn(Render.TableBody(rows, timeText));
  }

  /**
   * `submit`: normalise the posted form and append exactly one row for it, stamped
   * `now`. Nothing already stored changes.
   */
  method Submit(store: SubmissionStore, form: Pairs, parse: string -> Option<Date>, now: int) returns (id: nat)
    requires store.Valid()
    modifies store
    ensures store.Valid()
    ensures store.records == old(store.records) + [Stored(id, now, Normalize(form, parse))]
    ensures forall r :: r in old(store.records) ==> r.id != id
    ensures id == |old(store.records)| + 1
  {
    var answers := Normalize(form, parse);
    id := store.Insert(answers, now);
  }

  /** The gate admits exactly the configured key: no prefix, extension or neighbour of it. */
  lemma GateIsExact(args: Pairs, adminKey: string)
    ensures SuppliedKey(args) == adminKey <==> Get(args, "key") == Some(adminKey) || (adminKey == "" && Absent(args, "key"))
  {
  }

  /** With the default key, a missing `key`, an empty one, or the key followed by a space are all refused. */
  lemma DefaultKeyRefusals(args: Pairs)
    ensures Absent(args, "key") ==> SuppliedKey(args) != AdminKeyFrom(None)
    ensures Get(args, "key") == Some("") ==> SuppliedKey(args) != AdminKeyFrom(None)
    ensures Get(args, "key") == Some(DefaultAdminKey + " ") ==> SuppliedKey(args) != AdminKeyFrom(None)
    ensures Get(args, "key") == Some(DefaultAdminKey) ==> SuppliedKey(args) == AdminKeyFrom(None)
  {
  }

  /** Two rows appended in turn, the second with the later time: the built-in table shows the second row's `<tr>` first. */
  lemma TwoRowsBody(a: Submission, b: Submission, timeText: int -> string)
    requires a.createdAt < b.createdAt
    ensures Render.TableBody(Listing([a] + [b]), timeText) == Render.Row(b, timeText) + Render.Row(a, timeText)
  {
    assert [a] + [b] == [a, b];
    TwoSubmissionsNewestFirst(a, b);
    Render.RowsHtmlCons([b, a], timeText);
    Render.RowsHtmlCons([a], timeText);
    assert [b, a][1..] == [a] && [a][1..] == [];
    Render.RowsHtmlEmpty([], timeText);
  }

  /**
   * Two posts, the second one later: the store then holds both, numbered 1 and 2,
   * and the built-in admin table shows the second one's row before the first one's.
   * The key with a trailing space is refused.
   */
  method TwoSubmissionsScenario(formA: Pairs, formB: Pairs, parse: string -> Option<Date>, timeText: int -> string, t1: int, t2: int)
    requires t1 < t2
  {
    var store := new SubmissionStore();
    var idA := Submit(store, formA, parse, t1);
    var a := Stored(idA, t1, Normalize(formA, parse));
    assert store.records == [a];
    var idB := Submit(store, formB, parse, t2);
    var b := Stored(idB, t2, Normalize(formB, parse));
    assert idA == 1 && idB == 2;
    TwoRowsBody(a, b, timeText);
    var page := Admin(store, [("key", DefaultAdminKey)], AdminKeyFrom(None), Missing, timeText);
    assert page == BuiltIn(Render.Row(b, timeText) + Render.Row(a, timeText));
    var denied := Admin(store, [("key", DefaultAdminKey + " ")], AdminKeyFrom(None), Missing, timeText);
    assert denied == Forbidden(403, "Forbidden: wrong key");
  }
}
