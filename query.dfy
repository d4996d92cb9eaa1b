/** What a MongoDB cursor does with the documents of one collection, in the
    collection's natural order: equality filters, `find_one`, `sort("name", -1)`,
    `skip` and `limit`. */
module Query {
  import opened Wrappers
  import opened Documents

  /** An equality filter such as `{"_id": ObjectId(x), "is_active": True}`. */
  datatype Filter = Filter(id: Option<Id>, fields: Fields)

  /** `{key: v}`: a null `v` matches a null or missing key; any other value must
      be present and equal. */
  predicate FieldMatches(doc: Fields, key: string, v: Value)
  {
    if v == Null then key !in doc || doc[key] == Null else key in doc && doc[key] == v
  }

  predicate Matches(e: Entry, f: Filter)
  {
    && (f.id.Some? ==> e.id == f.id.value)
    && forall k :: k in f.fields ==> FieldMatches(e.fields, k, f.fields[k])
  }

  /** `find(filter)`: the matching documents, in the order given. */
  function Select(es: seq<Entry>, f: Filter): (r: seq<Entry>)
    ensures |r| <= |es|
    ensures forall e :: e in r <==> e in es && Matches(e, f)
  {
    if es == [] then []
    else (if Matches(es[0], f) then [es[0]] else []) + Select(es[1..], f)
  }

  /** A record appended to a collection comes last in `find`'s result when it
      matches: `find` keeps the collection's order. */
  lemma {:induction false} SelectAppend(t: seq<Entry>, e: Entry, f: Filter)
    ensures Select(t + [e], f) == Select(t, f) + (if Matches(e, f) then [e] else [])
  {
    if t != [] {
      assert (t + [e])[1..] == t[1..] + [e];
      SelectAppend(t[1..], e, f);
    }
  }

  /** `find_one(filter)`: the first matching document. */
  function FindFirst(es: seq<Entry>, f: Filter): (r: Option<Entry>)
    ensures r.Some? <==> exists e :: e in es && Matches(e, f)
    ensures r.Some? ==> r.value in es && Matches(r.value, f)
  {
    var found := Select(es, f);
    if found == [] then None else assert found[0] in found; Some(found[0])
  }

  /** No document before the one `find_one` returns matches the filter. */
  lemma {:induction false} FindFirstIsFirst(es: seq<Entry>, f: Filter, i: nat)
    requires i < |es| && Matches(es[i], f)
    ensures FindFirst(es, f).Some?
    ensures exists j :: 0 <= j <= i && es[j] == FindFirst(es, f).value
  {
    if !Matches(es[0], f) {
      FindFirstIsFirst(es[1..], f, i - 1);
      assert Select(es, f) == Select(es[1..], f);
      var j :| 0 <= j <= i - 1 && es[1..][j] == FindFirst(es[1..], f).value;
      assert es[j + 1] == es[1..][j];
    } else {
      assert es[0] == FindFirst(es, f).value;
    }
  }

  /** The last element, as a loop that overwrites a variable on each document
      leaves it. */
  function Last<T>(s: seq<T>): Option<T>
  {
    if s == [] then None else Some(s[|s| - 1])
  }

  // ---------------------------------------------------------------------
  // sort("name", -1)
  // ---------------------------------------------------------------------

  /** MongoDB compares strings by code point when no collation is set. */
  predicate StrLe(a: string, b: string)
  {
    a == [] || (b != [] && (a[0] < b[0] || (a[0] == b[0] && StrLe(a[1..], b[1..]))))
  }

  lemma {:induction false} StrLeTotal(a: string, b: string)
    ensures StrLe(a, b) || StrLe(b, a)
  {
    if a != [] && b != [] && a[0] == b[0] {
      StrLeTotal(a[1..], b[1..]);
    }
  }

  lemma {:induction false} StrLeTransitive(a: string, b: string, c: string)
    requires StrLe(a, b) && StrLe(b, c)
    ensures StrLe(a, c)
  {
    if a != [] && a[0] == b[0] && b[0] == c[0] {
      StrLeTransitive(a[1..], b[1..], c[1..]);
    }
  }

  /** The sort key of a document: its `name` text, or none when it has no name
      (null and a missing field sort below every string). */
  function NameKey(e: Entry): Option<string>
  {
    StrField(e.fields, "name")
  }

  /** `x` may come before `y` when sorting by name in descending order. */
  predicate Precedes(x: Option<string>, y: Option<string>)
  {
    match (x, y)
    case (_, None) => true
    case (None, Some(_)) => false
    case (Some(a), Some(b)) => StrLe(b, a)
  }

  lemma PrecedesTotal(x: Option<string>, y: Option<string>)
    ensures Precedes(x, y) || Precedes(y, x)
  {
    if x.Some? && y.Some? {
      StrLeTotal(x.value, y.value);
    }
  }

  lemma PrecedesTransitive(x: Option<string>, y: Option<string>, z: Option<string>)
    requires Precedes(x, y) && Precedes(y, z)
    ensures Precedes(x, z)
  {
    if x.Some? && y.Some? && z.Some? {
      StrLeTransitive(z.value, y.value, x.value);
    }
  }

  ghost predicate SortedByNameDesc(s: seq<Entry>)
  {
    forall i, j :: 0 <= i < j < |s| ==> Precedes(NameKey(s[i]), NameKey(s[j]))
  }

  function InsertByName(e: Entry, s: seq<Entry>): (r: seq<Entry>)
    ensures |r| == |s| + 1
    ensures forall x :: x in r <==> x == e || x in s
  {
    if s == [] then [e]
    else if Precedes(NameKey(e), NameKey(s[0])) then [e] + s
    else [s[0]] + InsertByName(e, s[1..])
  }

  /** A stable sort by name, descending: documents with equal keys keep their
      natural order, which is what the server does in practice. */
  function SortByNameDesc(s: seq<Entry>): seq<Entry>
  {
    if s == [] then [] else InsertByName(s[0], SortByNameDesc(s[1..]))
  }

  lemma {:induction false} InsertByNamePermutes(e: Entry, s: seq<Entry>)
    ensures multiset(InsertByName(e, s)) == multiset(s) + multiset{e}
  {
    if s != [] && !Precedes(NameKey(e), NameKey(s[0])) {
      InsertByNamePermutes(e, s[1..]);
      assert s == [s[0]] + s[1..];
    }
  }

  lemma {:induction false} InsertByNameSorted(e: Entry, s: seq<Entry>)
    requires SortedByNameDesc(s)
    ensures SortedByNameDesc(InsertByName(e, s))
  {
    if s == [] {
    } else if Precedes(NameKey(e), NameKey(s[0])) {
      var r := [e] + s;
      forall i, j | 0 <= i < j < |r|
        ensures Precedes(NameKey(r[i]), NameKey(r[j]))
      {
        if i == 0 && j > 1 {
          PrecedesTransitive(NameKey(e), NameKey(s[0]), NameKey(s[j - 1]));
        }
      }
    } else {
      var tail := InsertByName(e, s[1..]);
      InsertByNameSorted(e, s[1..]);
      PrecedesTotal(NameKey(e), NameKey(s[0]));
      var r := [s[0]] + tail;
      forall i, j | 0 <= i < j < |r|
        ensures Precedes(NameKey(r[i]), NameKey(r[j]))
      {
        if i == 0 {
          assert r[j] in tail;
          if r[j] != e {
            assert r[j] in s[1..];
            var k :| 0 <= k < |s[1..]| && s[1..][k] == r[j];
            assert s[k + 1] == r[j];
          }
        } else {
          assert r[i] == tail[i - 1] && r[j] == tail[j - 1];
        }
      }
    }
  }

  /** Sorting by name keeps exactly the documents it was given and orders them
      by name, descending. */
  lemma {:induction false} SortByNameDescCorrect(s: seq<Entry>)
    ensures multiset(SortByNameDesc(s)) == multiset(s)
    ensures SortedByNameDesc(SortByNameDesc(s))
  {
    if s != [] {
      SortByNameDescCorrect(s[1..]);
      InsertByNamePermutes(s[0], SortByNameDesc(s[1..]));
      InsertByNameSorted(s[0], SortByNameDesc(s[1..]));
      assert s == [s[0]] + s[1..];
    }
  }

  // ---------------------------------------------------------------------
  // skip(skip).limit(limit)
  // ---------------------------------------------------------------------

  function Abs(n: int): nat
  {
    if n < 0 then -n else n
  }

  /** The number of documents `skip(skip).limit(limit)` lets through out of `n`;
      a limit of 0 means no limit and a negative limit counts as its absolute
      value. */
  function WindowSize(n: nat, skip: nat, limit: int): (k: nat)
    ensures k <= n
    ensures limit != 0 ==> k <= Abs(limit)
  {
    var rest := if skip <= n then n - skip else 0;
    if limit == 0 || rest <= Abs(limit) then rest else Abs(limit)
  }

  function Window<T>(s: seq<T>, skip: nat, limit: int): (r: seq<T>)
    ensures |r| == WindowSize(|s|, skip, limit)
    ensures forall i :: 0 <= i < |r| ==> r[i] == s[skip + i]
  {
    var rest := if skip <= |s| then s[skip..] else [];
    rest[..WindowSize(|s|, skip, limit)]
  }
}
