/**
 * The filter inside `searchData`: of the fetched pool, keep the users whose
 * lower-cased first name or lower-cased last name equals the (already
 * lower-cased) search term. The callback reads `user.name.first` and
 * `user.name.last` and calls `toLowerCase` on them; when one of those throws,
 * the whole `filter` throws.
 */
module Search {
  import opened Wrappers
  import opened JsValues
  import opened Users

  /** `user.name[field].toLowerCase()`; `None` when reading the field or
      calling `toLowerCase` on what it holds throws. */
  function LowerName(user: JsVal, field: string): Option<string>
  {
    match GetPath(user, ["name", field])
    case Some(Str(s)) => Some(ToLowerCase(s))
    case _ => None
  }

  /** The filter callback, with `||` short-circuiting: the last name is only
      read when the first name does not match. `None` when it throws. */
  function Keep(user: JsVal, name: string): Option<bool>
  {
    match LowerName(user, "first")
    case None => None
    case Some(f) =>
      if f == name then Some(true)
      else
        match LowerName(user, "last")
        case None => None
        case Some(l) => Some(l == name)
  }

  /** The callback returns true for this user. */
  predicate Kept(user: JsVal, name: string)
  {
    Keep(user, name) == Some(true)
  }

  /** Both name fields hold strings. */
  predicate HasNames(user: JsVal)
  {
    var f, l := GetPath(user, ["name", "first"]), GetPath(user, ["name", "last"]);
    f.Some? && f.value.Str? && l.Some? && l.value.Str?
  }

  /** `pool.filter(callback)` from left to right; `None` when a call throws. */
  function FilterUsers(pool: seq<JsVal>, name: string): Option<seq<JsVal>>
    decreases |pool|
  {
    if |pool| == 0 then Some([])
    else
      match Keep(pool[0], name)
      case None => None
      case Some(k) =>
        match FilterUsers(pool[1..], name)
        case None => None
        case Some(rest) => Some(if k then [pool[0]] + rest else rest)
  }

  /** r can be obtained from s by deleting elements, keeping the order. */
  predicate IsSubsequence<T(==)>(r: seq<T>, s: seq<T>)
    decreases |s|
  {
    if |r| == 0 then true
    else if |s| == 0 then false
    else (r[0] == s[0] && IsSubsequence(r[1..], s[1..])) || IsSubsequence(r, s[1..])
  }

  /** For a user whose two name fields hold strings the callback does not
      throw, and keeps the user exactly when one lower-cased name equals the
      term. */
  lemma KeepExact(user: JsVal, name: string)
    requires HasNames(user)
    ensures Keep(user, name) == Some(
      ToLowerCase(GetPath(user, ["name", "first"]).value.s) == name ||
      ToLowerCase(GetPath(user, ["name", "last"]).value.s) == name)
  {
  }

  /** The filter succeeds exactly when the callback throws for no user. */
  lemma {:induction false} FilterDefined(pool: seq<JsVal>, name: string)
    ensures FilterUsers(pool, name).Some? <==>
            forall i :: 0 <= i < |pool| ==> Keep(pool[i], name).Some?
    decreases |pool|
  {
    if |pool| > 0 {
      FilterDefined(pool[1..], name);
      assert forall i :: 1 <= i < |pool| ==> pool[i] == pool[1..][i - 1];
    }
  }

  /** The result keeps the pool's order: it is a subsequence of the pool. */
  lemma {:induction false} FilterSubsequence(pool: seq<JsVal>, name: string)
    requires FilterUsers(pool, name).Some?
    ensures IsSubsequence(FilterUsers(pool, name).value, pool)
    decreases |pool|
  {
    if |pool| > 0 {
      FilterSubsequence(pool[1..], name);
      var r := FilterUsers(pool, name).value;
      var rest := FilterUsers(pool[1..], name).value;
      if Kept(pool[0], name) {
        assert r == [pool[0]] + rest;
        assert r[1..] == rest;
      } else {
        assert r == rest;
        if |r| > 0 { assert IsSubsequence(r, pool[1..]); }
      }
    }
  }

  /** A kept user appears in the result as often as in the pool, any other
      user not at all. */
  lemma {:induction false} FilterCounts(pool: seq<JsVal>, name: string, x: JsVal)
    requires FilterUsers(pool, name).Some?
    ensures multiset(FilterUsers(pool, name).value)[x] ==
            if Kept(x, name) then multiset(pool)[x] else 0
    decreases |pool|
  {
    if |pool| > 0 {
      FilterCounts(pool[1..], name, x);
      assert pool == [pool[0]] + pool[1..];
      var rest := FilterUsers(pool[1..], name).value;
      if Kept(pool[0], name) {
        assert FilterUsers(pool, name).value == [pool[0]] + rest;
      }
    }
  }

  /** A user is in the result exactly when it is in the pool and the callback
      keeps it; a user whose names merely contain the term is dropped. */
  lemma FilterMembers(pool: seq<JsVal>, name: string, x: JsVal)
    requires FilterUsers(pool, name).Some?
    ensures x in FilterUsers(pool, name).value <==> x in pool && Kept(x, name)
  {
    FilterCounts(pool, name, x);
  }

  /** A term with an upper-case letter matches no lower-cased name. */
  lemma UpperTermKeepsNothing(user: JsVal, name: string, i: nat)
    requires i < |name| && IsUpper(name[i])
    ensures !Kept(user, name)
  {
    match LowerName(user, "first")
    case None =>
    case Some(f) =>
      assert f != name by { if |f| == |name| { assert !IsUpper(f[i]); } }
      match LowerName(user, "last")
      case None =>
      case Some(l) =>
        assert l != name by { if |l| == |name| { assert !IsUpper(l[i]); } }
  }

  /** The callback's verdict on a user whose two names are given, from the
      lower-cased names. */
  lemma KeepNamed(first: string, last: string, name: string)
    ensures Keep(MakeUser("u", first, last, "e", "g", "d"), name)
         == Some(ToLowerCase(first) == name || ToLowerCase(last) == name)
  {
    MakeUserNames("u", first, last, "e", "g", "d");
  }

  /** Filtering a kept, a dropped and a kept user leaves the two kept ones,
      in their order. */
  lemma FilterKeepDropKeep(a: JsVal, b: JsVal, c: JsVal, name: string)
    requires Keep(a, name) == Some(true) && Keep(b, name) == Some(false)
    requires Keep(c, name) == Some(true)
    ensures FilterUsers([a, b, c], name) == Some([a, c])
  {
    var pool := [a, b, c];
    assert pool[1..] == [b, c] && [b, c][1..] == [c] && [c][1..] == [];
    assert FilterUsers([], name) == Some([]);
    assert [c][0] == c && [c] + [] == [c];
    assert FilterUsers([c], name) == Some([c]);
    assert FilterUsers([b, c], name) == Some([c]);
    assert [a] + [c] == [a, c];
  }

  /** Searching "Alice" keeps the users named Alice, first or last, and drops
      "Malice", whose first name only contains the term. */
  lemma SearchExample()
    ensures
      var alice := MakeUser("u", "Alice", "Smith", "e", "g", "d");
      var malice := MakeUser("u", "Malice", "Jones", "e", "g", "d");
      var bob := MakeUser("u", "Bob", "ALICE", "e", "g", "d");
      FilterUsers([alice, malice, bob], ToLowerCase("Alice")) == Some([alice, bob])
  {
    var alice := MakeUser("u", "Alice", "Smith", "e", "g", "d");
    var malice := MakeUser("u", "Malice", "Jones", "e", "g", "d");
    var bob := MakeUser("u", "Bob", "ALICE", "e", "g", "d");
    var term := ToLowerCase("Alice");
    assert term == "alice" by {
      LowerCons('A', "lice");
      LowerOfLower("lice");
    }
    assert Keep(alice, term) == Some(true) by {
      KeepNamed("Alice", "Smith", term);
    }
    assert Keep(malice, term) == Some(false) by {
      KeepNamed("Malice", "Jones", term);
      LowerCons('M', "alice");
      LowerOfLower("alice");
    }
    assert Keep(bob, term) == Some(true) by {
      KeepNamed("Bob", "ALICE", term);
      LowerCons('A', "LICE");
      LowerCons('L', "ICE");
      LowerCons('I', "CE");
      LowerCons('C', "E");
      LowerCons('E', "");
    }
    FilterKeepDropKeep(alice, malice, bob, term);
  }
}
