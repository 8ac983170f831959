/** The project record and the pure list values the page's handlers build:
    the filtered list after a delete and the mapped list after a publish toggle. */
module ProjectList {

  /** A project as the projects collection stores it. */
  datatype Project = Project(
    id: string,
    title: string,
    description: string,
    details: string,
    image: string,
    technologies: seq<string>,
    published: bool)

  /** The draft the form starts with and is reset to after a successful add:
      every text empty, no technologies, not published. */
  const EmptyDraft: Project := Project("", "", "", "", "", [], false)

  /** Some entry of `ps` has id `id`. */
  predicate HasId(ps: seq<Project>, id: string) {
    exists k :: 0 <= k < |ps| && ps[k].id == id
  }

  /** No two entries of `ps` share an id. The page never checks this; the
      lemmas below say which transitions keep it. */
  predicate UniqueIds(ps: seq<Project>) {
    forall i, j :: 0 <= i < j < |ps| ==> ps[i].id != ps[j].id
  }

  /** `ps.filter(project => project.id !== id)`: every entry with that id goes,
      the others stay, in their order. */
  function WithoutId(ps: seq<Project>, id: string): (r: seq<Project>)
    ensures |r| <= |ps|
    ensures forall p :: p in r <==> p in ps && p.id != id
  {
    if ps == [] then []
    else if ps[0].id != id then [ps[0]] + WithoutId(ps[1..], id)
    else WithoutId(ps[1..], id)
  }

  /** `ps.map(project => project.id === id ? { ...project, published: v } : project)`:
      same length and order; matching entries change only `published`. */
  function WithPublished(ps: seq<Project>, id: string, v: bool): (r: seq<Project>)
    ensures |r| == |ps|
    ensures forall k :: 0 <= k < |ps| && ps[k].id == id ==> r[k] == ps[k].(published := v)
    ensures forall k :: 0 <= k < |ps| && ps[k].id != id ==> r[k] == ps[k]
  {
    if ps == [] then []
    else [if ps[0].id == id then ps[0].(published := v) else ps[0]] + WithPublished(ps[1..], id, v)
  }

  /** The filter is order-preserving: it distributes over concatenation,
      which with the one-entry case pins it down as the subsequence of kept entries. */
  lemma {:induction false} WithoutIdAppend(a: seq<Project>, b: seq<Project>, id: string)
    ensures WithoutId(a + b, id) == WithoutId(a, id) + WithoutId(b, id)
    decreases |a|
  {
    if a != [] {
      WithoutIdAppend(a[1..], b, id);
      assert (a + b)[1..] == a[1..] + b;
    } else {
      assert a + b == b;
    }
  }

  /** On one entry the filter keeps it exactly when its id differs. */
  lemma WithoutIdSingle(p: Project, id: string)
    ensures WithoutId([p], id) == if p.id != id then [p] else []
  {
  }

  /** After a delete no entry has the deleted id. */
  lemma WithoutIdRemovesAll(ps: seq<Project>, id: string)
    ensures !HasId(WithoutId(ps, id), id)
  {
  }

  /** Deleting an id that is absent leaves the list as it was. */
  lemma {:induction false} WithoutIdAbsent(ps: seq<Project>, id: string)
    requires !HasId(ps, id)
    ensures WithoutId(ps, id) == ps
    decreases |ps|
  {
    if ps != [] {
      assert ps[0].id != id;
      assert !HasId(ps[1..], id) by {
        forall k | 0 <= k < |ps[1..]| ensures ps[1..][k].id != id {
          assert ps[1..][k] == ps[k + 1];
        }
      }
      WithoutIdAbsent(ps[1..], id);
      assert [ps[0]] + ps[1..] == ps;
    }
  }

  /** Dropping the head of a list with unique ids keeps ids unique, and the
      head's id occurs nowhere in the tail. */
  lemma UniqueIdsTail(ps: seq<Project>)
    requires |ps| >= 1 && UniqueIds(ps)
    ensures UniqueIds(ps[1..]) && !HasId(ps[1..], ps[0].id)
  {
  }

  /** When ids are unique, deleting a present id removes exactly one entry. */
  lemma {:induction false} WithoutIdUniqueLength(ps: seq<Project>, id: string)
    requires UniqueIds(ps) && HasId(ps, id)
    ensures |WithoutId(ps, id)| == |ps| - 1
    decreases |ps|
  {
    UniqueIdsTail(ps);
    if ps[0].id == id {
      WithoutIdAbsent(ps[1..], id);
    } else {
      var k :| 0 <= k < |ps| && ps[k].id == id;
      assert ps[1..][k - 1] == ps[k];
      WithoutIdUniqueLength(ps[1..], id);
    }
  }

  /** Deleting keeps ids unique. */
  lemma {:induction false} WithoutIdKeepsUnique(ps: seq<Project>, id: string)
    requires UniqueIds(ps)
    ensures UniqueIds(WithoutId(ps, id))
    decreases |ps|
  {
    if ps != [] {
      UniqueIdsTail(ps);
      WithoutIdKeepsUnique(ps[1..], id);
      var rest := WithoutId(ps[1..], id);
      if ps[0].id != id {
        var r := [ps[0]] + rest;
        forall j | 0 < j < |r| ensures r[j].id != ps[0].id {
          assert r[j] == rest[j - 1];
          assert rest[j - 1] in rest;
          var m :| 0 <= m < |ps[1..]| && ps[1..][m] == rest[j - 1];
        }
      }
    }
  }

  /** Deleting an id that occurs in the list removes at least one entry. */
  lemma {:induction false} WithoutIdPresentShrinks(ps: seq<Project>, id: string, j: nat)
    requires j < |ps| && ps[j].id == id
    ensures |WithoutId(ps, id)| <= |ps| - 1
    decreases j
  {
    if j > 0 {
      WithoutIdPresentShrinks(ps[1..], id, j - 1);
    }
  }

  /** The filter removes every copy of a duplicated id, not only the first:
      with two entries of that id, the list shrinks by at least two. */
  lemma {:induction false} DeleteRemovesDuplicates(ps: seq<Project>, id: string, i: nat, j: nat)
    requires i < j < |ps| && ps[i].id == id && ps[j].id == id
    ensures |WithoutId(ps, id)| <= |ps| - 2
    decreases i
  {
    if i == 0 {
      WithoutIdPresentShrinks(ps[1..], id, j - 1);
    } else {
      DeleteRemovesDuplicates(ps[1..], id, i - 1, j - 1);
    }
  }

  /** Every entry keeps its id through a publish toggle. */
  lemma WithPublishedKeepsIds(ps: seq<Project>, id: string, v: bool)
    ensures forall k :: 0 <= k < |ps| ==> WithPublished(ps, id, v)[k].id == ps[k].id
  {
  }

  /** A publish toggle keeps ids unique. */
  lemma WithPublishedKeepsUnique(ps: seq<Project>, id: string, v: bool)
    requires UniqueIds(ps)
    ensures UniqueIds(WithPublished(ps, id, v))
  {
  }

  /** Two toggles of the same id: the later server answer wins. */
  lemma WithPublishedLastWins(ps: seq<Project>, id: string, v: bool, w: bool)
    ensures WithPublished(WithPublished(ps, id, v), id, w) == WithPublished(ps, id, w)
  {
  }

  /** Setting `published` to the value every matching entry already has changes nothing. */
  lemma WithPublishedNoChange(ps: seq<Project>, id: string, v: bool)
    requires forall k :: 0 <= k < |ps| && ps[k].id == id ==> ps[k].published == v
    ensures WithPublished(ps, id, v) == ps
  {
  }

  /** Publish then unpublish, with the server honouring both requests, gives back
      the original list when the matching entries were unpublished before. */
  lemma TogglePublishRoundTrip(ps: seq<Project>, id: string)
    requires forall k :: 0 <= k < |ps| && ps[k].id == id ==> !ps[k].published
    ensures WithPublished(WithPublished(ps, id, true), id, false) == ps
  {
  }

  /** Appending a record keeps ids unique exactly when its id is new. The page
      appends whatever the server returns without checking. */
  lemma AppendKeepsUnique(ps: seq<Project>, p: Project)
    requires UniqueIds(ps)
    ensures UniqueIds(ps + [p]) <==> !HasId(ps, p.id)
  {
    var r := ps + [p];
    if UniqueIds(r) {
      forall k | 0 <= k < |ps| ensures ps[k].id != p.id {
        assert r[k] == ps[k] && r[|ps|] == p;
      }
    }
  }
}
