/** What the client assumes of the remote store. None of this runs in the
    client: it states how the store is taken to answer the create, update
    and delete requests, so that the client's reload-after-mutate behaviour
    can be related to the rows the store holds. The store keeps its rows in
    the order the list request asks for, newest first, and every list
    request returns them in that one stored order; in particular rows with
    equal `created_at` come back in the same relative order each time. */
module Store {
  import opened Records
  import opened Filtering

  /** The row the store makes from a create request: the given identifier,
      the body's fields, and `read` set to false. */
  function Created(p: Payload, id: Id): Message {
    Message(id, p.name, p.email, p.message, p.createdAt, false)
  }

  /** Adds a row in front of the first row that is not newer than it. */
  function Insert(rows: seq<Message>, m: Message): (r: seq<Message>)
    ensures multiset(r) == multiset(rows) + multiset{m}
  {
    if rows == [] || m.createdAt >= rows[0].createdAt then [m] + rows
    else
      assert rows == [rows[0]] + rows[1..];
      [rows[0]] + Insert(rows[1..], m)
  }

  /** Inserting places the new row at one position and shifts nothing else. */
  lemma {:induction false} InsertSplits(rows: seq<Message>, m: Message) returns (k: nat)
    ensures k <= |rows| && Insert(rows, m) == rows[..k] + [m] + rows[k..]
  {
    if rows == [] || m.createdAt >= rows[0].createdAt {
      k := 0;
    } else {
      var k' := InsertSplits(rows[1..], m);
      k := k' + 1;
      assert rows[..k] == [rows[0]] + rows[1..][..k'];
      assert rows[k..] == rows[1..][k'..];
    }
  }

  /** Inserting a row adds it to the count of every filter it passes. */
  lemma InsertCount(rows: seq<Message>, m: Message, keep: Message -> bool)
    ensures |Where(Insert(rows, m), keep)| == |Where(rows, keep)| + (if keep(m) then 1 else 0)
  {
    var k := InsertSplits(rows, m);
    assert rows == rows[..k] + rows[k..];
    WhereAppend(rows[..k] + [m], rows[k..], keep);
    WhereAppend(rows[..k], [m], keep);
    WhereAppend(rows[..k], rows[k..], keep);
    assert Where([m], keep) == if keep(m) then [m] else [];
  }

  /** Inserting a row whose id no other row uses keeps the ids unique. */
  lemma InsertKeepsUnique(rows: seq<Message>, m: Message)
    requires UniqueIds(rows)
    requires forall x :: x in rows ==> x.id != m.id
    ensures UniqueIds(Insert(rows, m))
  {
    var k := InsertSplits(rows, m);
    var r := Insert(rows, m);
    forall i, j | 0 <= i < j < |r|
      ensures r[i].id != r[j].id
    {
      if j < k {
        assert r[i] == rows[i] && r[j] == rows[j];
      } else if j == k {
        assert r[i] == rows[i] && r[j] == m;
      } else if i < k {
        assert r[i] == rows[i] && r[j] == rows[j - 1];
      } else if i == k {
        assert r[i] == m && r[j] == rows[j - 1];
      } else {
        assert r[i] == rows[i - 1] && r[j] == rows[j - 1];
      }
    }
  }

  /** Inserting keeps the rows newest first. */
  lemma {:induction false} InsertKeepsOrder(rows: seq<Message>, m: Message)
    requires NewestFirst(rows)
    ensures NewestFirst(Insert(rows, m))
  {
    if rows != [] && m.createdAt < rows[0].createdAt {
      var rest := Insert(rows[1..], m);
      InsertKeepsOrder(rows[1..], m);
      forall x | x in rest
        ensures x.createdAt <= rows[0].createdAt
      {
        assert x in multiset(rest);
        assert x == m || x in rows[1..];
      }
      var r := [rows[0]] + rest;
      forall i, j | 0 <= i < j < |r|
        ensures r[i].createdAt >= r[j].createdAt
      {
        if i > 0 {
          assert r[i] == rest[i - 1] && r[j] == rest[j - 1];
        } else {
          assert r[j] in rest;
        }
      }
    }
  }

  /** PATCH by id with body `{read: v}`: every row with that id gets `read == v`,
      every other field and every other row stay as they were. */
  function SetRead(rows: seq<Message>, id: Id, v: bool): seq<Message> {
    seq(|rows|, i requires 0 <= i < |rows| => if rows[i].id == id then rows[i].(read := v) else rows[i])
  }

  function OtherThan(id: Id): Message -> bool {
    (m: Message) => m.id != id
  }

  /** DELETE by id: every row with that id goes, the others stay in order. */
  function Drop(rows: seq<Message>, id: Id): seq<Message> {
    Where(rows, OtherThan(id))
  }

  /** With unique identifiers, a patch changes exactly one position, and only
      its `read` field. */
  lemma SetReadAt(rows: seq<Message>, id: Id, v: bool, i: nat)
    requires UniqueIds(rows) && i < |rows| && rows[i].id == id
    ensures SetRead(rows, id, v) == rows[i := rows[i].(read := v)]
  {
  }

  /** A patch never disturbs the newest-first order. */
  lemma SetReadKeepsOrder(rows: seq<Message>, id: Id, v: bool)
    requires NewestFirst(rows)
    ensures NewestFirst(SetRead(rows, id, v))
    ensures UniqueIds(rows) ==> UniqueIds(SetRead(rows, id, v))
  {
  }

  /** After a delete no row carries the identifier, every other row is still
      there, and the newest-first order and identifier uniqueness survive. */
  lemma DropRemoves(rows: seq<Message>, id: Id)
    ensures forall m :: m in Drop(rows, id) <==> m in rows && m.id != id
    ensures NewestFirst(rows) ==> NewestFirst(Drop(rows, id))
    ensures UniqueIds(rows) ==> UniqueIds(Drop(rows, id))
  {
    WhereMembers(rows, OtherThan(id));
    WhereSelects(rows, OtherThan(id));
  }

  /** With unique identifiers, a delete removes exactly the one row with that id. */
  lemma DropAt(rows: seq<Message>, id: Id, i: nat)
    requires UniqueIds(rows) && i < |rows| && rows[i].id == id
    ensures Drop(rows, id) == rows[..i] + rows[i + 1..]
  {
    assert rows == rows[..i] + [rows[i]] + rows[i + 1..];
    WhereAppend(rows[..i] + [rows[i]], rows[i + 1..], OtherThan(id));
    WhereAppend(rows[..i], [rows[i]], OtherThan(id));
    assert Where([rows[i]], OtherThan(id)) == [];
    WhereKeepsAll(rows[..i], OtherThan(id));
    WhereKeepsAll(rows[i + 1..], OtherThan(id));
  }
}
