/**
 * The feed ledger as a value: the post records stored in `feeds.json` and the list edits
 * the handlers make to them (prepend, unpin everything, filter out by id).
 */
module Ledger {
  import opened Wrappers

  /**
   * One feed entry, a JSON object. Keys that some creation paths never write are optional:
   * `title` (only `upload`), `type` (`upload` and announcements), `pinned` (only announcements
   * and the unpin loop). `id` is optional because entries read back from the file may lack it.
   */
  datatype Post = Post(
    id: Option<string>,
    title: Option<string>,
    kind: Option<string>,
    description: string,
    filename: string,
    author: string,
    pinned: Option<bool>)

  /** `str(post.get('id', ''))`: the text `delete_post` compares with the requested id. */
  function Key(p: Post): string {
    p.id.GetOr("")
  }

  predicate IsPinned(p: Post) {
    p.pinned == Some(true)
  }

  /** The record `add_announcement` creates. */
  function Announcement(id: string, content: string, author: string): (a: Post)
    ensures IsPinned(a) && Key(a) == id
  {
    Post(Some(id), None, Some("announcement"), content, "", author, Some(true))
  }

  /** Every entry with `pinned` set to false and nothing else changed, in the same order. */
  function Unpinned(ps: seq<Post>): (r: seq<Post>)
    ensures |r| == |ps|
    ensures forall i :: 0 <= i < |ps| ==> r[i] == ps[i].(pinned := Some(false))
  {
    if ps == [] then [] else [ps[0].(pinned := Some(false))] + Unpinned(ps[1..])
  }

  /** After an announcement is prepended to the unpinned ledger, it is the one pinned entry. */
  lemma AnnouncementIsOnlyPinned(ps: seq<Post>, id: string, content: string, author: string)
    ensures var r := [Announcement(id, content, author)] + Unpinned(ps);
      forall i :: 0 <= i < |r| ==> (IsPinned(r[i]) <==> i == 0)
  {
  }

  /** Unpinning is idempotent, so a second announcement leaves only itself pinned as well. */
  lemma UnpinnedIdempotent(ps: seq<Post>)
    ensures Unpinned(Unpinned(ps)) == Unpinned(ps)
  {
  }

  /** The number of entries whose key is `id`. */
  function CountKey(ps: seq<Post>, id: string): nat {
    if ps == [] then 0 else (if Key(ps[0]) == id then 1 else 0) + CountKey(ps[1..], id)
  }

  /** `[post for post in ps if str(post.get('id', '')) != id]`. */
  function RemoveById(ps: seq<Post>, id: string): (r: seq<Post>)
    ensures forall p :: p in r <==> p in ps && Key(p) != id
    ensures |r| <= |ps|
  {
    if ps == [] then []
    else if Key(ps[0]) == id then RemoveById(ps[1..], id)
    else [ps[0]] + RemoveById(ps[1..], id)
  }

  /** Exactly the matching entries are dropped. */
  lemma {:induction false} RemoveByIdLength(ps: seq<Post>, id: string)
    ensures |RemoveById(ps, id)| == |ps| - CountKey(ps, id)
  {
    if ps != [] {
      RemoveByIdLength(ps[1..], id);
    }
  }

  /** Filtering works piece by piece, so the survivors keep their relative order. */
  lemma {:induction false} RemoveByIdAppend(a: seq<Post>, b: seq<Post>, id: string)
    ensures RemoveById(a + b, id) == RemoveById(a, id) + RemoveById(b, id)
  {
    if a == [] {
      assert a + b == b;
    } else {
      assert (a + b)[1..] == a[1..] + b;
      RemoveByIdAppend(a[1..], b, id);
    }
  }

  /** An id that no entry carries leaves the ledger unchanged. */
  lemma {:induction false} RemoveByIdAbsent(ps: seq<Post>, id: string)
    requires forall i :: 0 <= i < |ps| ==> Key(ps[i]) != id
    ensures RemoveById(ps, id) == ps
  {
    if ps != [] {
      RemoveByIdAbsent(ps[1..], id);
      assert ps == [ps[0]] + ps[1..];
    }
  }

  /** Repeating a delete is a no-op. */
  lemma RemoveByIdIdempotent(ps: seq<Post>, id: string)
    ensures RemoveById(RemoveById(ps, id), id) == RemoveById(ps, id)
  {
    var r := RemoveById(ps, id);
    forall i | 0 <= i < |r| ensures Key(r[i]) != id {
      assert r[i] in r;
    }
    RemoveByIdAbsent(r, id);
  }

  /** Deleting two ids gives the same ledger in either order. */
  lemma {:induction false} RemoveByIdCommutes(ps: seq<Post>, x: string, y: string)
    ensures RemoveById(RemoveById(ps, x), y) == RemoveById(RemoveById(ps, y), x)
  {
    if ps != [] {
      RemoveByIdCommutes(ps[1..], x, y);
      RemoveByIdAppend([ps[0]], RemoveById(ps[1..], x), y);
      RemoveByIdAppend([ps[0]], RemoveById(ps[1..], y), x);
      assert [ps[0]][1..] == [];
    }
  }

  /** Deleting the id of a freshly prepended entry whose id is new undoes the prepend. */
  lemma DeleteUndoesPrepend(ps: seq<Post>, p: Post)
    requires forall i :: 0 <= i < |ps| ==> Key(ps[i]) != Key(p)
    ensures RemoveById([p] + ps, Key(p)) == ps
  {
    assert ([p] + ps)[1..] == ps;
    RemoveByIdAbsent(ps, Key(p));
  }
}
