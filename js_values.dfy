/**
 * The part of JavaScript's value model that the dashboard touches: user
 * records fetched as JSON, property access `value[key]`, the dotted-path
 * lookup `getNestedPropertyValue` (a `reduce` over `path.split(".")`) and
 * `String.prototype.toLowerCase`.
 */
module JsValues {
  import opened Wrappers

  /** A JSON value as far as the records are read: a string, an object with
      named fields, or `undefined` (what a missing field reads as). */
  datatype JsVal = Undefined | Str(s: string) | Obj(fields: map<string, JsVal>)

  const Dot: char := '.'

  /** `v[key]`. `None` stands for the TypeError JavaScript throws when a
      property of `undefined` is read; a missing field reads as `Undefined`. */
  function Prop(v: JsVal, key: string): Option<JsVal>
  {
    match v
    case Undefined => None
    case Str(_) => Some(Undefined)
    case Obj(f) => Some(if key in f then f[key] else Undefined)
  }

  /** No piece holds a dot. */
  predicate NoDots(parts: seq<string>)
  {
    forall i :: 0 <= i < |parts| ==> Dot !in parts[i]
  }

  /** The pieces joined back with "." between them. */
  function Join(parts: seq<string>): string
  {
    if |parts| == 0 then ""
    else if |parts| == 1 then parts[0]
    else parts[0] + [Dot] + Join(parts[1..])
  }

  /** Position of the first dot in s. */
  function FirstDot(s: string): (i: nat)
    requires Dot in s
    ensures i < |s| && s[i] == Dot && Dot !in s[..i]
  {
    if s[0] == Dot then 0
    else
      var j := FirstDot(s[1..]);
      assert s[..j + 1] == [s[0]] + s[1..][..j];
      1 + j
  }

  /** `s.split(".")`: never empty and no piece holds a dot ("" splits into
      [""], "a..b" into ["a", "", "b"]). */
  function Split(s: string): (r: seq<string>)
    ensures |r| >= 1 && NoDots(r)
    decreases |s|
  {
    if Dot !in s then [s]
    else
      var i := FirstDot(s);
      var rest := Split(s[i + 1..]);
      assert forall k :: 1 <= k < |[s[..i]] + rest| ==> ([s[..i]] + rest)[k] == rest[k - 1];
      [s[..i]] + rest
  }

  /** Joining the pieces of a split gives the string back. */
  lemma {:induction false} JoinSplit(s: string)
    ensures Join(Split(s)) == s
    decreases |s|
  {
    if Dot in s {
      var i := FirstDot(s);
      var t := s[i + 1..];
      var rest := Split(t);
      JoinSplit(t);
      assert Split(s) == [s[..i]] + rest;
      assert Join([s[..i]] + rest) == s[..i] + [Dot] + Join(rest) by {
        assert ([s[..i]] + rest)[1..] == rest;
      }
      assert s == s[..i] + [Dot] + t;
    }
  }

  /** The first dot of p + "." + t, when p holds none, is the one after p. */
  lemma FirstDotAfter(p: string, t: string)
    requires Dot !in p
    ensures FirstDot(p + [Dot] + t) == |p|
  {
    var s := p + [Dot] + t;
    assert s[..|p|] == p;
    assert s[|p|] == Dot;
  }

  /** One unfolding of Split at the first dot. */
  lemma SplitAtFirstDot(p: string, t: string)
    requires Dot !in p
    ensures Split(p + [Dot] + t) == [p] + Split(t)
  {
    var s := p + [Dot] + t;
    FirstDotAfter(p, t);
    assert s[..|p|] == p && s[|p| + 1..] == t;
  }

  /** Splitting is the inverse of joining pieces that hold no dot. */
  lemma {:induction false} SplitJoin(parts: seq<string>)
    requires |parts| >= 1 && NoDots(parts)
    ensures Split(Join(parts)) == parts
    decreases |parts|
  {
    if |parts| > 1 {
      var p, rest := parts[0], parts[1..];
      assert Join(parts) == p + [Dot] + Join(rest);
      assert NoDots(rest) by {
        forall k | 0 <= k < |rest| ensures Dot !in rest[k] {
          assert rest[k] == parts[k + 1];
        }
      }
      SplitJoin(rest);
      assert Dot !in p;
      SplitAtFirstDot(p, Join(rest));
      assert parts == [p] + rest;
    }
  }

  /** Joining two non-empty lists of pieces puts a dot between their joins. */
  lemma {:induction false} JoinAppend(a: seq<string>, b: seq<string>)
    requires |a| >= 1 && |b| >= 1
    ensures Join(a + b) == Join(a) + [Dot] + Join(b)
    decreases |a|
  {
    if |a| == 1 {
      assert (a + b)[1..] == b;
    } else {
      assert (a + b)[1..] == a[1..] + b;
      JoinAppend(a[1..], b);
    }
  }

  lemma NoDotsAppend(a: seq<string>, b: seq<string>)
    requires NoDots(a) && NoDots(b)
    ensures NoDots(a + b)
  {
    forall i | 0 <= i < |a + b| ensures Dot !in (a + b)[i] {
      if i >= |a| {
        assert (a + b)[i] == b[i - |a|];
      }
    }
  }

  /** A path "p.q" splits into the segments of p followed by those of q. */
  lemma SplitDotted(p: string, q: string)
    ensures Split(p + [Dot] + q) == Split(p) + Split(q)
  {
    var a, b := Split(p), Split(q);
    JoinSplit(p);
    JoinSplit(q);
    JoinAppend(a, b);
    NoDotsAppend(a, b);
    SplitJoin(a + b);
  }

  /** A path without a dot is a single segment. */
  lemma SplitSingle(path: string)
    requires Dot !in path
    ensures Split(path) == [path]
  {
    SplitJoin([path]);
  }

  /** `keys.reduce((value, key) => value[key], v)`; `None` when some step
      throws. */
  function GetPath(v: JsVal, keys: seq<string>): Option<JsVal>
    decreases |keys|
  {
    if |keys| == 0 then Some(v)
    else
      match Prop(v, keys[0])
      case None => None
      case Some(w) => GetPath(w, keys[1..])
  }

  /** Continue a lookup that may already have thrown. */
  function ThenPath(o: Option<JsVal>, keys: seq<string>): Option<JsVal>
  {
    match o
    case None => None
    case Some(w) => GetPath(w, keys)
  }

  /** Walking a + b is walking a, then walking b from where a ended. */
  lemma {:induction false} GetPathAppend(v: JsVal, a: seq<string>, b: seq<string>)
    ensures GetPath(v, a + b) == ThenPath(GetPath(v, a), b)
    decreases |a|
  {
    if |a| == 0 {
      assert a + b == b;
    } else {
      assert (a + b)[0] == a[0];
      assert (a + b)[1..] == a[1..] + b;
      match Prop(v, a[0])
      case None =>
      case Some(w) => GetPathAppend(w, a[1..], b);
    }
  }

  /** `getNestedPropertyValue(obj, path)`. */
  function GetNestedPropertyValue(obj: JsVal, path: string): Option<JsVal>
  {
    GetPath(obj, Split(path))
  }

  /** get(obj, "p.q") == get(get(obj, "p"), "q"). */
  lemma NestedDotted(obj: JsVal, p: string, q: string)
    ensures GetNestedPropertyValue(obj, p + [Dot] + q)
         == ThenPath(GetNestedPropertyValue(obj, p), Split(q))
  {
    SplitDotted(p, q);
    GetPathAppend(obj, Split(p), Split(q));
  }

  /** A path with a single segment is a direct field lookup. */
  lemma NestedSingle(obj: JsVal, path: string)
    requires Dot !in path
    ensures GetNestedPropertyValue(obj, path) == Prop(obj, path)
  {
    SplitSingle(path);
    var keys := Split(path);
    assert keys[0] == path && keys[1..] == [];
    match Prop(obj, path)
    case None =>
    case Some(w) =>
      assert GetPath(w, keys[1..]) == Some(w);
  }

  /** The two-level lookup `obj.outer.inner` of a record whose outer field
      is an object holding the inner string. */
  lemma NestedField(obj: JsVal, outer: string, inner: string)
    requires Dot !in outer && Dot !in inner
    ensures GetNestedPropertyValue(obj, outer + [Dot] + inner)
         == GetPath(obj, [outer, inner])
  {
    NestedDotted(obj, outer, inner);
    SplitSingle(outer);
    SplitSingle(inner);
    assert [outer] + [inner] == [outer, inner];
    GetPathAppend(obj, [outer], [inner]);
    match Prop(obj, outer)
    case None =>
    case Some(w) =>
      assert [outer][1..] == [];
  }

  predicate IsUpper(c: char) { 'A' <= c <= 'Z' }

  function LowerChar(c: char): char
  {
    if IsUpper(c) then (c as int - 'A' as int + 'a' as int) as char else c
  }

  /** `s.toLowerCase()` over the ASCII letters: same length, no upper-case
      letter left, every other character kept. */
  function ToLowerCase(s: string): (r: string)
    ensures |r| == |s|
    ensures forall i :: 0 <= i < |r| ==> !IsUpper(r[i])
    ensures forall i :: 0 <= i < |s| && !IsUpper(s[i]) ==> r[i] == s[i]
    ensures forall i :: 0 <= i < |s| && IsUpper(s[i]) ==> r[i] as int == s[i] as int + 32
  {
    if |s| == 0 then "" else [LowerChar(s[0])] + ToLowerCase(s[1..])
  }

  /** Lower-casing twice is lower-casing once. */
  lemma LowerIdempotent(s: string)
    ensures ToLowerCase(ToLowerCase(s)) == ToLowerCase(s)
  {
    var r := ToLowerCase(s);
    var rr := ToLowerCase(r);
    assert forall i :: 0 <= i < |r| ==> rr[i] == r[i];
  }

  /** A string with no upper-case letter is its own lower-case form. */
  lemma LowerOfLower(s: string)
    requires forall i :: 0 <= i < |s| ==> !IsUpper(s[i])
    ensures ToLowerCase(s) == s
  {
    var r := ToLowerCase(s);
    assert forall i :: 0 <= i < |r| ==> r[i] == s[i];
  }

  /** Lower-casing acts on the first character and then on the rest. */
  lemma LowerCons(c: char, rest: string)
    ensures ToLowerCase([c] + rest) == [LowerChar(c)] + ToLowerCase(rest)
  {
    assert ([c] + rest)[1..] == rest;
  }
}
