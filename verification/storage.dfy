/** The server's in-memory repository (`MemStorage`): users, saved calculations and templates
    in three tables, all numbered from one shared counter. Each table is kept in insertion
    order, which is the iteration order of the JavaScript `Map` it models (ids are never
    reused, so an id is never re-inserted). */
module Storage {
  import opened Common
  import Decimal
  import Engine
  import Sorting

  datatype User = User(id: string, username: string, password: string)
  datatype NewUser = NewUser(username: string, password: string)

  /** `createdAt` is `None` where the stored date has no usable time. */
  datatype Calculation = Calculation(
    id: string, name: string, products: seq<Engine.Product>, createdAt: Option<int>)
  datatype NewCalculation = NewCalculation(name: string, products: Option<seq<Engine.Product>>)

  datatype Template = Template(
    id: string, name: string, description: Option<string>,
    products: seq<Engine.Product>, createdAt: Option<int>)
  datatype NewTemplate = NewTemplate(
    name: string, description: Option<string>, products: Option<seq<Engine.Product>>)

  datatype MemStorage = MemStorage(
    users: seq<User>,
    calculations: seq<Calculation>,
    templates: seq<Template>,
    currentId: nat)

  function UserId(u: User): string { u.id }
  function UserName(u: User): string { u.username }
  function CalculationId(c: Calculation): string { c.id }
  function TemplateId(t: Template): string { t.id }

  // ---------------------------------------------------------------- tables

  /** Position of the first row whose key is `k` (`Map.get`, `Array.find`). */
  function FindIndex<V>(rows: seq<V>, key: V -> string, k: string): (r: Option<nat>)
    ensures r.Some? ==> r.value < |rows| && key(rows[r.value]) == k
    ensures r.Some? ==> forall j :: 0 <= j < r.value ==> key(rows[j]) != k
    ensures r.None? <==> forall j :: 0 <= j < |rows| ==> key(rows[j]) != k
  {
    if |rows| == 0 then None
    else if key(rows[0]) == k then Some(0)
    else match FindIndex(rows[1..], key, k)
      case Some(i) => Some(i + 1)
      case None => None
  }

  function Find<V>(rows: seq<V>, key: V -> string, k: string): (r: Option<V>)
    ensures r.Some? ==> r.value in rows && key(r.value) == k
    ensures r.None? <==> forall j :: 0 <= j < |rows| ==> key(rows[j]) != k
  {
    match FindIndex(rows, key, k)
    case Some(i) => Some(rows[i])
    case None => None
  }

  predicate HasKey<V>(rows: seq<V>, key: V -> string, k: string) {
    exists j :: 0 <= j < |rows| && key(rows[j]) == k
  }

  predicate DistinctKeys<V>(rows: seq<V>, key: V -> string) {
    forall i, j :: 0 <= i < j < |rows| ==> key(rows[i]) != key(rows[j])
  }

  function KeySet<V>(rows: seq<V>, key: V -> string): set<string> {
    set j | 0 <= j < |rows| :: key(rows[j])
  }

  /** The rows without the one keyed `k` (`Map.delete`). */
  function Drop<V>(rows: seq<V>, key: V -> string, k: string): (r: seq<V>)
    ensures forall i :: 0 <= i < |r| ==> r[i] in rows && key(r[i]) != k
    ensures forall i :: 0 <= i < |rows| && key(rows[i]) != k ==> rows[i] in r
    ensures DistinctKeys(rows, key) ==> DistinctKeys(r, key)
  {
    if |rows| == 0 then []
    else
      var rest := Drop(rows[1..], key, k);
      if key(rows[0]) == k then rest
      else
        assert DistinctKeys(rows, key) ==> forall i :: 0 <= i < |rest| ==> key(rest[i]) != key(rows[0]) by {
          if DistinctKeys(rows, key) {
            forall i | 0 <= i < |rest|
              ensures key(rest[i]) != key(rows[0])
            {
              var j :| 0 <= j < |rows[1..]| && rows[1..][j] == rest[i];
              assert rows[j + 1] == rest[i];
            }
          }
        }
        assert DistinctKeys(rows, key) ==> DistinctKeys(rows[1..], key) by {
          if DistinctKeys(rows, key) {
            forall i, j | 0 <= i < j < |rows[1..]|
              ensures key(rows[1..][i]) != key(rows[1..][j])
            {
              assert rows[1..][i] == rows[i + 1] && rows[1..][j] == rows[j + 1];
            }
          }
        }
        var r := [rows[0]] + rest;
        assert DistinctKeys(rows, key) ==> DistinctKeys(r, key) by {
          if DistinctKeys(rows, key) {
            forall i, j | 0 <= i < j < |r|
              ensures key(r[i]) != key(r[j])
            {
              assert r[j] == rest[j - 1];
              if i > 0 {
                assert r[i] == rest[i - 1];
              }
            }
          }
        }
        r
  }

  lemma KeySetOfDrop<V>(rows: seq<V>, key: V -> string, k: string)
    ensures KeySet(Drop(rows, key, k), key) <= KeySet(rows, key)
  {
    var r := Drop(rows, key, k);
    forall x | x in KeySet(r, key)
      ensures x in KeySet(rows, key)
    {
      var j :| 0 <= j < |r| && key(r[j]) == x;
      assert r[j] in rows;
      var i :| 0 <= i < |rows| && rows[i] == r[j];
    }
  }

  /** A lookup checks the first row, then the rest. */
  lemma FindCons<V>(rows: seq<V>, key: V -> string, k: string)
    requires |rows| > 0
    ensures Find(rows, key, k) == if key(rows[0]) == k then Some(rows[0]) else Find(rows[1..], key, k)
  {
  }

  /** Dropping one key leaves every other lookup as it was. */
  lemma {:induction false} FindAfterDrop<V>(rows: seq<V>, key: V -> string, k: string, other: string)
    requires other != k
    ensures Find(Drop(rows, key, k), key, other) == Find(rows, key, other)
  {
    if |rows| > 0 {
      FindAfterDrop(rows[1..], key, k, other);
      FindCons(rows, key, other);
      var rest := Drop(rows[1..], key, k);
      if key(rows[0]) != k {
        var r := [rows[0]] + rest;
        assert r[1..] == rest;
        assert Drop(rows, key, k) == r;
        FindCons(r, key, other);
      }
    }
  }

  /** A row appended under a key no earlier row has is what a lookup of that key finds. */
  lemma {:induction false} FindAppended<V>(rows: seq<V>, key: V -> string, v: V)
    requires !HasKey(rows, key, key(v))
    ensures Find(rows + [v], key, key(v)) == Some(v)
  {
    var r := rows + [v];
    assert r[|rows|] == v;
    assert forall j :: 0 <= j < |rows| ==> r[j] == rows[j];
  }

  /** Appending a row leaves lookups of every other key as they were. */
  lemma FindOtherAfterAppend<V>(rows: seq<V>, key: V -> string, v: V, other: string)
    requires other != key(v)
    ensures Find(rows + [v], key, other) == Find(rows, key, other)
  {
    var r := rows + [v];
    var i := FindIndex(r, key, other);
    var i0 := FindIndex(rows, key, other);
    assert forall j :: 0 <= j < |rows| ==> r[j] == rows[j];
    if i.Some? {
      assert i.value < |rows|;
      assert i0 == i;
    } else {
      assert i0.None?;
    }
  }

  // ---------------------------------------------------------------- ids

  /** The ids the counter has handed out while it counted up from 1 to `next`. */
  function Issued(next: nat): set<string> {
    set n: nat | 1 <= n < next :: Decimal.NatToString(n)
  }

  lemma NextIdIsFresh(next: nat)
    ensures Decimal.NatToString(next) !in Issued(next)
  {
    if Decimal.NatToString(next) in Issued(next) {
      var n: nat :| 1 <= n < next && Decimal.NatToString(n) == Decimal.NatToString(next);
      Decimal.RenderInjective(n, next);
    }
  }

  function AllIds(s: MemStorage): set<string> {
    KeySet(s.users, UserId) + KeySet(s.calculations, CalculationId) + KeySet(s.templates, TemplateId)
  }

  /** What the repository keeps true: every id was issued by the counter, and no id names two
      rows, within one table or across the three. */
  predicate Valid(s: MemStorage) {
    && s.currentId >= 1
    && DistinctKeys(s.users, UserId)
    && DistinctKeys(s.calculations, CalculationId)
    && DistinctKeys(s.templates, TemplateId)
    && KeySet(s.users, UserId) !! KeySet(s.calculations, CalculationId)
    && KeySet(s.users, UserId) !! KeySet(s.templates, TemplateId)
    && KeySet(s.calculations, CalculationId) !! KeySet(s.templates, TemplateId)
    && AllIds(s) <= Issued(s.currentId)
  }

  /** The constructor: three empty tables, counter at 1. */
  function NewStorage(): (s: MemStorage)
    ensures Valid(s)
    ensures s.currentId == 1 && AllIds(s) == {}
  {
    MemStorage([], [], [], 1)
  }

  lemma IssuedGrows(next: nat)
    ensures Issued(next) <= Issued(next + 1)
    ensures Issued(next + 1) == Issued(next) + (if next >= 1 then {Decimal.NatToString(next)} else {})
  {
    if next >= 1 {
      assert Decimal.NatToString(next) in Issued(next + 1);
    }
  }

  lemma KeySetAppend<V>(rows: seq<V>, key: V -> string, v: V)
    ensures KeySet(rows + [v], key) == KeySet(rows, key) + {key(v)}
    ensures !HasKey(rows, key, key(v)) <==> key(v) !in KeySet(rows, key)
  {
    var r := rows + [v];
    assert r[|rows|] == v;
    forall x | x in KeySet(rows, key)
      ensures x in KeySet(r, key)
    {
      var j :| 0 <= j < |rows| && key(rows[j]) == x;
      assert r[j] == rows[j];
    }
  }

  lemma DistinctAppend<V>(rows: seq<V>, key: V -> string, v: V)
    requires DistinctKeys(rows, key) && key(v) !in KeySet(rows, key)
    ensures DistinctKeys(rows + [v], key)
  {
    var r := rows + [v];
    forall i, j | 0 <= i < j < |r|
      ensures key(r[i]) != key(r[j])
    {
      assert r[i] == rows[i];
      if j < |rows| {
        assert r[j] == rows[j];
      } else {
        assert key(rows[i]) in KeySet(rows, key);
      }
    }
  }

  // ---------------------------------------------------------------- users

  function GetUser(s: MemStorage, id: string): (r: Option<User>)
    ensures r.Some? ==> r.value.id == id && r.value in s.users
    ensures r.None? <==> id !in KeySet(s.users, UserId)
  {
    var r := Find(s.users, UserId, id);
    assert r.Some? ==> id in KeySet(s.users, UserId);
    assert id in KeySet(s.users, UserId) ==> r.Some?;
    r
  }

  /** `getUserByUsername`: the first stored user with that name, if any. */
  function GetUserByUsername(s: MemStorage, username: string): (r: Option<User>)
    ensures r.Some? ==> r.value in s.users && r.value.username == username
    ensures r.None? <==> forall u :: u in s.users ==> u.username != username
    ensures r.Some? ==> exists i :: 0 <= i < |s.users| && s.users[i] == r.value
                          && forall j :: 0 <= j < i ==> s.users[j].username != username
  {
    match FindIndex(s.users, UserName, username)
    case Some(i) => Some(s.users[i])
    case None => None
  }

  function CreateUser(s: MemStorage, u: NewUser): (res: (MemStorage, User))
    ensures res.1 == User(Decimal.NatToString(s.currentId), u.username, u.password)
    ensures res.0 == s.(users := s.users + [res.1], currentId := s.currentId + 1)
  {
    var user := User(Decimal.NatToString(s.currentId), u.username, u.password);
    (s.(users := s.users + [user], currentId := s.currentId + 1), user)
  }

  // ---------------------------------------------------------------- calculations

  /** The sort key `createdAt?.getTime() || 0`. */
  function CalculationStamp(c: Calculation): int {
    c.createdAt.GetOr(0)
  }

  function TemplateStamp(t: Template): int {
    t.createdAt.GetOr(0)
  }

  /** `getCalculations`: exactly the stored calculations, newest first. */
  function GetCalculations(s: MemStorage): (r: seq<Calculation>)
    ensures multiset(r) == multiset(s.calculations)
    ensures Sorting.NewestFirst(r, CalculationStamp)
  {
    Sorting.SortNewestFirst(s.calculations, CalculationStamp)
  }

  function GetCalculation(s: MemStorage, id: string): (r: Option<Calculation>)
    ensures r.Some? ==> r.value.id == id && r.value in s.calculations
    ensures r.None? <==> id !in KeySet(s.calculations, CalculationId)
  {
    var r := Find(s.calculations, CalculationId, id);
    assert r.Some? ==> id in KeySet(s.calculations, CalculationId);
    assert id in KeySet(s.calculations, CalculationId) ==> r.Some?;
    r
  }

  /** `createCalculation` at time `now`: the counter's value names the new row, then counts on. */
  function CreateCalculation(s: MemStorage, x: NewCalculation, now: int): (res: (MemStorage, Calculation))
    ensures res.1.id == Decimal.NatToString(s.currentId)
    ensures res.1.name == x.name
    ensures res.1.products == x.products.GetOr([])
    ensures res.1.createdAt == Some(now)
    ensures res.0 == s.(calculations := s.calculations + [res.1], currentId := s.currentId + 1)
  {
    var c := Calculation(Decimal.NatToString(s.currentId), x.name, x.products.GetOr([]), Some(now));
    (s.(calculations := s.calculations + [c], currentId := s.currentId + 1), c)
  }

  /** `deleteCalculation`: reports whether the id was there. */
  function DeleteCalculation(s: MemStorage, id: string): (res: (MemStorage, bool))
    ensures res.1 <==> GetCalculation(s, id).Some?
    ensures res.0.users == s.users && res.0.templates == s.templates
    ensures res.0.currentId == s.currentId
    ensures GetCalculation(res.0, id).None?
  {
    var rows := Drop(s.calculations, CalculationId, id);
    var s' := s.(calculations := rows);
    assert id !in KeySet(rows, CalculationId);
    (s', GetCalculation(s, id).Some?)
  }

  // ---------------------------------------------------------------- templates

  function GetTemplates(s: MemStorage): (r: seq<Template>)
    ensures multiset(r) == multiset(s.templates)
    ensures Sorting.NewestFirst(r, TemplateStamp)
  {
    Sorting.SortNewestFirst(s.templates, TemplateStamp)
  }

  function GetTemplate(s: MemStorage, id: string): (r: Option<Template>)
    ensures r.Some? ==> r.value.id == id && r.value in s.templates
    ensures r.None? <==> id !in KeySet(s.templates, TemplateId)
  {
    var r := Find(s.templates, TemplateId, id);
    assert r.Some? ==> id in KeySet(s.templates, TemplateId);
    assert id in KeySet(s.templates, TemplateId) ==> r.Some?;
    r
  }

  /** `description || null`: an absent or empty description is stored as null. */
  function StoredDescription(d: Option<string>): (r: Option<string>)
    ensures r.Some? <==> d.Some? && d.value != ""
    ensures r.Some? ==> r == d
  {
    match d
    case Some(text) => if text != "" then d else None
    case None => None
  }

  function CreateTemplate(s: MemStorage, x: NewTemplate, now: int): (res: (MemStorage, Template))
    ensures res.1.id == Decimal.NatToString(s.currentId)
    ensures res.1.name == x.name
    ensures res.1.description == StoredDescription(x.description)
    ensures res.1.products == x.products.GetOr([])
    ensures res.1.createdAt == Some(now)
    ensures res.0 == s.(templates := s.templates + [res.1], currentId := s.currentId + 1)
  {
    var t := Template(Decimal.NatToString(s.currentId), x.name, StoredDescription(x.description),
                      x.products.GetOr([]), Some(now));
    (s.(templates := s.templates + [t], currentId := s.currentId + 1), t)
  }

  function DeleteTemplate(s: MemStorage, id: string): (res: (MemStorage, bool))
    ensures res.1 <==> GetTemplate(s, id).Some?
    ensures res.0.users == s.users && res.0.calculations == s.calculations
    ensures res.0.currentId == s.currentId
    ensures GetTemplate(res.0, id).None?
  {
    var rows := Drop(s.templates, TemplateId, id);
    var s' := s.(templates := rows);
    assert id !in KeySet(rows, TemplateId);
    (s', GetTemplate(s, id).Some?)
  }

  // ---------------------------------------------------------------- properties

  /** Every create issues an id that no row of any table holds, and keeps the repository valid. */
  lemma CreatesKeepValid(s: MemStorage, u: NewUser, c: NewCalculation, t: NewTemplate, now: int)
    requires Valid(s)
    ensures Decimal.NatToString(s.currentId) !in AllIds(s)
    ensures Valid(CreateUser(s, u).0)
    ensures Valid(CreateCalculation(s, c, now).0)
    ensures Valid(CreateTemplate(s, t, now).0)
  {
    var id := Decimal.NatToString(s.currentId);
    NextIdIsFresh(s.currentId);
    IssuedGrows(s.currentId);
    var (su, user) := CreateUser(s, u);
    KeySetAppend(s.users, UserId, user);
    DistinctAppend(s.users, UserId, user);
    var (sc, made) := CreateCalculation(s, c, now);
    KeySetAppend(s.calculations, CalculationId, made);
    DistinctAppend(s.calculations, CalculationId, made);
    var (st, tmpl) := CreateTemplate(s, t, now);
    KeySetAppend(s.templates, TemplateId, tmpl);
    DistinctAppend(s.templates, TemplateId, tmpl);
  }

  lemma DeletesKeepValid(s: MemStorage, id: string)
    requires Valid(s)
    ensures Valid(DeleteCalculation(s, id).0)
    ensures Valid(DeleteTemplate(s, id).0)
  {
    KeySetOfDrop(s.calculations, CalculationId, id);
    KeySetOfDrop(s.templates, TemplateId, id);
  }

  /** Two successive creates, of any kinds, never issue the same id. */
  lemma SuccessiveIdsDiffer(s: MemStorage, c: NewCalculation, t: NewTemplate, now1: int, now2: int)
    ensures var (s1, made) := CreateCalculation(s, c, now1);
            made.id != CreateTemplate(s1, t, now2).1.id
  {
    Decimal.RenderInjective(s.currentId, s.currentId + 1);
  }

  /** Get-after-create: the new calculation is found under its id with the name and products
      it was given (no products meaning an empty list), and every other lookup is unchanged. */
  lemma GetAfterCreateCalculation(s: MemStorage, x: NewCalculation, now: int, other: string)
    requires Valid(s)
    ensures var (s', c) := CreateCalculation(s, x, now);
            && GetCalculation(s', c.id) == Some(c)
            && GetCalculation(s', c.id).value.name == x.name
            && GetCalculation(s', c.id).value.products == (if x.products.Some? then x.products.value else [])
            && (other != c.id ==> GetCalculation(s', other) == GetCalculation(s, other))
            && GetTemplates(s') == GetTemplates(s)
  {
    var (s', c) := CreateCalculation(s, x, now);
    CreatesKeepValid(s, NewUser("", ""), x, NewTemplate("", None, None), now);
    KeySetAppend(s.calculations, CalculationId, c);
    FindAppended(s.calculations, CalculationId, c);
    if other != c.id {
      FindOtherAfterAppend(s.calculations, CalculationId, c, other);
    }
  }

  lemma GetAfterCreateTemplate(s: MemStorage, x: NewTemplate, now: int, other: string)
    requires Valid(s)
    ensures var (s', t) := CreateTemplate(s, x, now);
            && GetTemplate(s', t.id) == Some(t)
            && (other != t.id ==> GetTemplate(s', other) == GetTemplate(s, other))
            && GetCalculations(s') == GetCalculations(s)
  {
    var (s', t) := CreateTemplate(s, x, now);
    CreatesKeepValid(s, NewUser("", ""), NewCalculation("", None), x, now);
    KeySetAppend(s.templates, TemplateId, t);
    FindAppended(s.templates, TemplateId, t);
    if other != t.id {
      FindOtherAfterAppend(s.templates, TemplateId, t, other);
    }
  }

  lemma GetAfterCreateUser(s: MemStorage, x: NewUser)
    requires Valid(s)
    ensures var (s', u) := CreateUser(s, x);
            && GetUser(s', u.id) == Some(u)
            && GetUserByUsername(s', x.username).Some?
            && GetUserByUsername(s', x.username).value.username == x.username
  {
    var (s', u) := CreateUser(s, x);
    CreatesKeepValid(s, x, NewCalculation("", None), NewTemplate("", None, None), 0);
    KeySetAppend(s.users, UserId, u);
    FindAppended(s.users, UserId, u);
    assert s'.users[|s.users|] == u;
  }

  /** Delete: afterwards the id is gone and every other calculation is found as before. */
  lemma DeleteCalculationOnlyRemovesId(s: MemStorage, id: string, other: string)
    requires other != id
    ensures GetCalculation(DeleteCalculation(s, id).0, other) == GetCalculation(s, other)
    ensures GetTemplates(DeleteCalculation(s, id).0) == GetTemplates(s)
  {
    FindAfterDrop(s.calculations, CalculationId, id, other);
  }

  lemma DeleteTemplateOnlyRemovesId(s: MemStorage, id: string, other: string)
    requires other != id
    ensures GetTemplate(DeleteTemplate(s, id).0, other) == GetTemplate(s, other)
    ensures GetCalculations(DeleteTemplate(s, id).0) == GetCalculations(s)
  {
    FindAfterDrop(s.templates, TemplateId, id, other);
  }

  /** A second delete of the same id finds nothing. */
  lemma DeleteTwice(s: MemStorage, id: string)
    ensures !DeleteCalculation(DeleteCalculation(s, id).0, id).1
    ensures !DeleteTemplate(DeleteTemplate(s, id).0, id).1
  {
  }
}
