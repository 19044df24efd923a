/**
 * The user record of the random-user API, as far as the dashboard reads it:
 * `login.username`, `name.first`, `name.last`, `email`, `gender` and
 * `registered.date`, all strings.
 */
module Users {
  import opened Wrappers
  import opened JsValues

  /** The dotted paths the five column headers sort by. */
  const UsernamePath: string := "login" + [Dot] + "username"
  const FirstNamePath: string := "name" + [Dot] + "first"
  const EmailPath: string := "email"
  const GenderPath: string := "gender"
  const RegisteredPath: string := "registered" + [Dot] + "date"

  /** Reading `obj.outer.inner` where both levels are present. */
  lemma FieldAt(f: map<string, JsVal>, outer: string, g: map<string, JsVal>, inner: string)
    requires Dot !in outer && Dot !in inner
    requires outer in f && f[outer] == Obj(g) && inner in g
    ensures GetNestedPropertyValue(Obj(f), outer + [Dot] + inner) == Some(g[inner])
    ensures GetPath(Obj(f), [outer, inner]) == Some(g[inner])
  {
    NestedField(Obj(f), outer, inner);
    assert Prop(Obj(f), outer) == Some(Obj(g));
    assert Prop(Obj(g), inner) == Some(g[inner]);
    assert [outer, inner][1..] == [inner];
    assert [inner][1..] == [];
    assert GetPath(g[inner], []) == Some(g[inner]);
    assert GetPath(Obj(g), [inner]) == Some(g[inner]);
  }

  /** Reading the top-level field `obj.key`. */
  lemma FieldTop(f: map<string, JsVal>, key: string)
    requires Dot !in key && key in f
    ensures GetNestedPropertyValue(Obj(f), key) == Some(f[key])
  {
    NestedSingle(Obj(f), key);
  }

  /** A record with the six fields the table and the search read. */
  function MakeUser(username: string, first: string, last: string,
                    email: string, gender: string, date: string): JsVal
  {
    Obj(map[
      "login" := Obj(map["username" := Str(username)]),
      "name" := Obj(map["first" := Str(first), "last" := Str(last)]),
      "email" := Str(email),
      "gender" := Str(gender),
      "registered" := Obj(map["date" := Str(date)])])
  }

  /** The name fields of a made record are read back, by the search's
      `user.name.first` / `user.name.last` and by the "name.first" column. */
  lemma MakeUserNames(username: string, first: string, last: string,
                      email: string, gender: string, date: string)
    ensures GetPath(MakeUser(username, first, last, email, gender, date), ["name", "first"]) == Some(Str(first))
    ensures GetPath(MakeUser(username, first, last, email, gender, date), ["name", "last"]) == Some(Str(last))
    ensures GetNestedPropertyValue(MakeUser(username, first, last, email, gender, date), FirstNamePath)
         == Some(Str(first))
  {
    var u := MakeUser(username, first, last, email, gender, date);
    var name := map["first" := Str(first), "last" := Str(last)];
    FieldAt(u.fields, "name", name, "first");
    FieldAt(u.fields, "name", name, "last");
  }

  /** The username and registration-date columns of a made record read
      back. */
  lemma MakeUserNestedColumns(username: string, first: string, last: string,
                              email: string, gender: string, date: string)
    ensures GetNestedPropertyValue(MakeUser(username, first, last, email, gender, date), UsernamePath)
         == Some(Str(username))
    ensures GetNestedPropertyValue(MakeUser(username, first, last, email, gender, date), RegisteredPath)
         == Some(Str(date))
  {
    var u := MakeUser(username, first, last, email, gender, date);
    FieldAt(u.fields, "login", map["username" := Str(username)], "username");
    FieldAt(u.fields, "registered", map["date" := Str(date)], "date");
  }

  /** The email and gender columns of a made record read back. */
  lemma MakeUserTopColumns(username: string, first: string, last: string,
                           email: string, gender: string, date: string)
    ensures GetNestedPropertyValue(MakeUser(username, first, last, email, gender, date), EmailPath)
         == Some(Str(email))
    ensures GetNestedPropertyValue(MakeUser(username, first, last, email, gender, date), GenderPath)
         == Some(Str(gender))
  {
    var u := MakeUser(username, first, last, email, gender, date);
    FieldTop(u.fields, "email");
    FieldTop(u.fields, "gender");
  }
}
