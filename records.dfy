/** Ordered collections of records keyed by a numeric id: the shape shared by the
    app's tasks, log entries and point entries. A collection is kept in insertion
    order; lookups go to the first record carrying an id, and deletion keeps every
    record whose id differs. */
module Records {

  datatype Option<T> = None | Some(value: T) {
    /** The value, or `default` when there is none (JavaScript's `x || default`). */
    function GetOr(default: T): T {
      match this
      case Some(v) => v
      case None => default
    }
  }

  /** One stored record: the id it was created with and the fields a form can edit. */
  datatype Record<F> = Record(id: int, fields: F)

  /** Some record of `s` carries `id`. */
  predicate HasId<F>(s: seq<Record<F>>, id: int) {
    exists i :: 0 <= i < |s| && s[i].id == id
  }

  /** No two records of `s` share an id. */
  predicate UniqueIds<F>(s: seq<Record<F>>) {
    forall i, j :: 0 <= i < j < |s| ==> s[i].id != s[j].id
  }

  lemma HasIdTail<F>(s: seq<Record<F>>, id: int)
    requires HasId(s, id) && s[0].id != id
    ensures HasId(s[1..], id)
  {
  }

  /** The position of the record that `find(r => r.id === id)` returns: the first one carrying `id`. */
  function FirstIndex<F>(s: seq<Record<F>>, id: int): (k: nat)
    requires HasId(s, id)
    ensures k < |s| && s[k].id == id
    ensures forall j :: 0 <= j < k ==> s[j].id != id
  {
    if s[0].id == id then 0
    else
      HasIdTail(s, id);
      1 + FirstIndex(s[1..], id)
  }

  /** `filter(r => r.id !== id)`: every record whose id differs, in their order. */
  function WithoutId<F>(s: seq<Record<F>>, id: int): (r: seq<Record<F>>)
    ensures |r| <= |s|
    ensures forall i :: 0 <= i < |r| ==> r[i] in s && r[i].id != id
    ensures forall i :: 0 <= i < |s| && s[i].id != id ==> s[i] in r
  {
    if s == [] then []
    else (if s[0].id == id then [] else [s[0]]) + WithoutId(s[1..], id)
  }

  /** Filtering a concatenation filters each part: the kept records stay in their relative order. */
  lemma {:induction false} WithoutIdAppend<F>(a: seq<Record<F>>, b: seq<Record<F>>, id: int)
    ensures WithoutId(a + b, id) == WithoutId(a, id) + WithoutId(b, id)
  {
    if a == [] {
      assert a + b == b;
    } else {
      assert (a + b)[1..] == a[1..] + b;
      WithoutIdAppend(a[1..], b, id);
    }
  }

  /** Deleting an id that no record carries leaves the collection as it was. */
  lemma {:induction false} WithoutIdAbsent<F>(s: seq<Record<F>>, id: int)
    requires !HasId(s, id)
    ensures WithoutId(s, id) == s
  {
    if s != [] {
      assert !HasId(s[1..], id) by {
        forall i | 0 <= i < |s| - 1 ensures s[1..][i].id != id {
          assert s[1..][i] == s[i + 1];
        }
      }
      WithoutIdAbsent(s[1..], id);
      assert s == [s[0]] + s[1..];
    }
  }

  /** With unique ids, deleting a present id removes exactly that one record and keeps the rest in order. */
  lemma WithoutIdUnique<F>(s: seq<Record<F>>, id: int)
    requires UniqueIds(s) && HasId(s, id)
    ensures WithoutId(s, id) == s[..FirstIndex(s, id)] + s[FirstIndex(s, id) + 1..]
    ensures |WithoutId(s, id)| == |s| - 1
  {
    var k := FirstIndex(s, id);
    var before, after := s[..k], s[k + 1..];
    assert s == (before + [s[k]]) + after;
    assert !HasId(before, id) by {
      forall i | 0 <= i < |before| ensures before[i].id != id {
        assert before[i] == s[i];
      }
    }
    assert !HasId(after, id) by {
      forall i | 0 <= i < |after| ensures after[i].id != id {
        assert after[i] == s[k + 1 + i];
      }
    }
    calc {
      WithoutId(s, id);
      { WithoutIdAppend(before + [s[k]], after, id); }
      WithoutId(before + [s[k]], id) + WithoutId(after, id);
      { WithoutIdAppend(before, [s[k]], id); }
      WithoutId(before, id) + WithoutId([s[k]], id) + WithoutId(after, id);
      { WithoutIdAbsent(before, id); WithoutIdAbsent(after, id); }
      before + WithoutId([s[k]], id) + after;
      { assert WithoutId([s[k]], id) == []; }
      before + after;
    }
  }

  /** Deleting never introduces a duplicate id. */
  lemma {:induction false} WithoutIdKeepsUnique<F>(s: seq<Record<F>>, id: int)
    requires UniqueIds(s)
    ensures UniqueIds(WithoutId(s, id))
  {
    if s != [] {
      var tail := s[1..];
      assert UniqueIds(tail) by {
        forall i, j | 0 <= i < j < |tail| ensures tail[i].id != tail[j].id {
          assert tail[i] == s[i + 1] && tail[j] == s[j + 1];
        }
      }
      WithoutIdKeepsUnique(tail, id);
      var rest := WithoutId(tail, id);
      if s[0].id != id {
        forall x | x in rest ensures x.id != s[0].id {
          var m :| 0 <= m < |tail| && tail[m] == x;
          assert tail[m] == s[m + 1];
        }
        var r := [s[0]] + rest;
        forall i, j | 0 <= i < j < |r| ensures r[i].id != r[j].id {
          if i == 0 {
            assert r[j] in rest;
          } else {
            assert r[i] == rest[i - 1] && r[j] == rest[j - 1];
          }
        }
      }
    }
  }

  /** Appending a record under a fresh id keeps the ids unique. */
  lemma AppendFreshKeepsUnique<F>(s: seq<Record<F>>, r: Record<F>)
    requires UniqueIds(s) && !HasId(s, r.id)
    ensures UniqueIds(s + [r])
  {
  }
}
