/**
 * The two copies of the feed ledger and the four handlers that change them.
 *
 * `file` is what `feeds.json` holds; `mem` is the process-global `posts` list, loaded once
 * at start-up. `add_announcement` and the POST branch of `home` re-read and rewrite the file
 * and never touch `mem`; `upload` and `delete_post` edit `mem` and dump it over the file,
 * discarding whatever only the file held. `blobs` is the set of names saved in the upload
 * folder. Identity, clock-derived ids and names, the classifier's reply and whether a write
 * succeeds are parameters.
 */
module Feed {
  import opened Wrappers
  import opened Text
  import opened Moderation
  import opened Attachments
  import opened Ledger

  /** The state of `feeds.json` on disk. */
  datatype FeedFile =
    | Missing                    // no file at the path
    | Unreadable                 // present, but `json.load` raises
    | Stored(posts: seq<Post>)   // a JSON array of post objects

  /** The logged-in user as the handlers see it. */
  datatype Caller = Caller(email: string, role: string)

  /** How a request ends: the flash message or error it produces. */
  datatype Outcome =
    | Done
    | NotLoggedIn        // `home` POST without a session
    | Forbidden          // role check failed
    | EmptyContent       // the stripped text is empty
    | Rejected           // the moderation gate flagged the text
    | UnsupportedMedia   // the attachment's extension is not allowed
    | ReadFailed         // `json.load` raised: the request fails with a server error
    | WriteFailed        // opening or writing the file raised

  /** The entries a reader takes from the file; a missing or unreadable file gives none. */
  function PostsIn(disk: FeedFile): seq<Post> {
    match disk
    case Stored(ps) => ps
    case _ => []
  }

  predicate MayAnnounce(role: string) {
    role == "teacher" || role == "admin"
  }

  /** The record the POST branch of `home` creates. */
  function HomePost(id: string, content: string, filename: string, author: string): (p: Post)
    ensures !IsPinned(p) && Key(p) == id
  {
    Post(Some(id), None, None, content, filename, author, None)
  }

  /** The record `upload` creates. */
  function UploadPost(id: string, title: string, kind: string, description: string,
                      filename: string, author: string): (p: Post)
    ensures !IsPinned(p) && Key(p) == id
  {
    Post(Some(id), Some(title), Some(kind), description, filename, author, None)
  }

  /** The text `upload` screens: title and description joined by a space, stripped. */
  function ScreenedText(title: string, description: string): (text: string)
    ensures Trimmed(text)
    ensures |text| <= |Strip(title)| + 1 + |Strip(description)|
  {
    Strip(Strip(title) + " " + Strip(description))
  }

  /** Moderation is skipped exactly when both the stripped title and description are empty. */
  lemma ScreenedTextEmpty(title: string, description: string)
    ensures ScreenedText(title, description) == [] <==> Strip(title) == [] && Strip(description) == []
  {
    var t, d := Strip(title), Strip(description);
    var joined := t + " " + d;
    if t != [] {
      assert joined[0] == t[0] && !IsSpace(joined[0]);
    } else if d != [] {
      assert joined[1] == d[0] && !IsSpace(joined[1]);
    } else {
      assert joined == " ";
    }
  }

  /** The outcome `upload` reaches once its guards have run. */
  function UploadOutcome(title: string, description: string, attachment: string,
                         reply: Reply, writeOk: bool): (r: Outcome)
    ensures r in {Rejected, UnsupportedMedia, Done, WriteFailed}
    ensures !reply.Answered? ==> r != Rejected
  {
    if ScreenedText(title, description) != [] && IsFlagged(reply) then Rejected
    else if attachment != "" && !IsAllowedImage(attachment) then UnsupportedMedia
    else if writeOk then Done
    else WriteFailed
  }

  /** Empty text is never screened: the verdict cannot reject it, whatever the classifier said. */
  lemma EmptyTextNeverRejected(title: string, description: string, attachment: string,
                                reply: Reply, writeOk: bool)
    requires Strip(title) == [] && Strip(description) == []
    ensures UploadOutcome(title, description, attachment, reply, writeOk) != Rejected
  {
    ScreenedTextEmpty(title, description);
  }

  /** The guards of `upload`: a flagged text or a disallowed attachment stops it, nothing else does. */
  lemma UploadGuards(title: string, description: string, attachment: string, reply: Reply, writeOk: bool)
    ensures var r := UploadOutcome(title, description, attachment, reply, writeOk);
      && (r == Rejected <==> (Strip(title) != [] || Strip(description) != []) && IsFlagged(reply))
      && (r == UnsupportedMedia ==> attachment != "" && !IsAllowedImage(attachment))
      && (attachment != "" && !IsAllowedImage(attachment) ==> r == Rejected || r == UnsupportedMedia)
      && (!reply.Answered? && (attachment == "" || IsAllowedImage(attachment)) ==> r in {Done, WriteFailed})
  {
    ScreenedTextEmpty(title, description);
  }

  /** The loop of `add_announcement` that sets `pinned` to false on every entry, in place. */
  method UnpinAll(posts: seq<Post>) returns (data: seq<Post>)
    ensures data == Unpinned(posts)
  {
    data := posts;
    var i := 0;
    while i < |data|
      invariant 0 <= i <= |data| == |posts|
      invariant forall k :: 0 <= k < i ==> data[k] == posts[k].(pinned := Some(false))
      invariant data[i..] == posts[i..]
    {
      data := data[i := data[i].(pinned := Some(false))];
      i := i + 1;
    }
  }

  class FeedStore {
    var file: FeedFile
    var mem: seq<Post>
    var blobs: set<string>

    /** The import-time load: the file's entries, or an empty list when it is missing or unreadable. */
    constructor Load(disk: FeedFile, saved: set<string>)
      ensures file == disk && blobs == saved
      ensures disk.Stored? ==> mem == disk.posts
      ensures !disk.Stored? ==> mem == []
    {
      file := disk;
      blobs := saved;
      mem := PostsIn(disk);
    }

    /** `add_announcement`: unpin every entry of the file and prepend a pinned announcement. */
    method AddAnnouncement(caller: Caller, content: string, stamp: string, writeOk: bool)
      returns (r: Outcome)
      modifies this`file
      ensures r == (if !MayAnnounce(caller.role) then Forbidden
                    else if Strip(content) == [] then EmptyContent
                    else if old(file).Unreadable? then ReadFailed
                    else if !writeOk then WriteFailed
                    else Done)
      ensures r == Done ==> file == Stored([Announcement("announcement_" + stamp, Strip(content), caller.email)]
                                           + Unpinned(PostsIn(old(file))))
      ensures r == Done ==> forall i :: 0 <= i < |file.posts| ==> (IsPinned(file.posts[i]) <==> i == 0)
      ensures r != Done ==> file == old(file)
    {
      if !MayAnnounce(caller.role) {
        return Forbidden;
      }
      var text := Strip(content);
      if text == [] {
        return EmptyContent;
      }
      if file.Unreadable? {
        return ReadFailed;
      }
      ghost var before := PostsIn(file);
      var data := UnpinAll(PostsIn(file));
      var announcement := Announcement("announcement_" + stamp, text, caller.email);
      data := [announcement] + data;
      if !writeOk {
        return WriteFailed;
      }
      AnnouncementIsOnlyPinned(before, "announcement_" + stamp, text, caller.email);
      file := Stored(data);
      r := Done;
    }

    /**
     * The POST branch of `home`: prepend a plain post to the file. `image` is the name the
     * attachment was saved under, if one was sent; its extension is not checked.
     */
    method CreatePost(caller: Option<Caller>, content: string, id: string, image: Option<string>, writeOk: bool)
      returns (r: Outcome)
      modifies this`file, this`blobs
      ensures r == (if caller.None? then NotLoggedIn
                    else if Strip(content) == [] then EmptyContent
                    else if old(file).Unreadable? then ReadFailed
                    else if !writeOk then WriteFailed
                    else Done)
      ensures blobs == if caller.Some? && Strip(content) != [] && image.Some?
                       then old(blobs) + {image.value} else old(blobs)
      ensures file == if r == Done
                      then Stored([HomePost(id, Strip(content), (if image.Some? then image.value else ""), caller.value.email)]
                                  + PostsIn(old(file)))
                      else old(file)
    {
      if caller.None? {
        return NotLoggedIn;
      }
      var text := Strip(content);
      if text == [] {
        return EmptyContent;
      }
      if image.Some? {
        blobs := blobs + {image.value};
      }
      if file.Unreadable? {
        return ReadFailed;
      }
      var data := PostsIn(file);
      data := [HomePost(id, text, (if image.Some? then image.value else ""), caller.value.email)] + data;
      if !writeOk {
        return WriteFailed;
      }
      file := Stored(data);
      r := Done;
    }

    /**
     * `upload`: screen the text, check the attachment, prepend to `mem`, then dump `mem` over
     * the file. `attachment` is the uploaded file's own name ("" when none was sent) and
     * `storedName` the name it is saved under.
     */
    method Upload(caller: Caller, title: string, kind: Option<string>, description: string,
                  attachment: string, storedName: string, reply: Reply, id: string, writeOk: bool)
      returns (r: Outcome)
      modifies this`mem, this`file, this`blobs
      ensures r == UploadOutcome(title, description, attachment, reply, writeOk)
      ensures r in {Rejected, UnsupportedMedia} ==>
                mem == old(mem) && file == old(file) && blobs == old(blobs)
      ensures r in {Done, WriteFailed} ==>
                && mem == [UploadPost(id, Strip(title), kind.GetOr("announcement"), Strip(description),
                                      if attachment == "" then "" else storedName, caller.email)] + old(mem)
                && blobs == old(blobs) + (if attachment == "" then {} else {storedName})
      ensures r == Done ==> file == Stored(mem)
      ensures r == WriteFailed ==> file == old(file)
    {
      var t := Strip(title);
      var d := Strip(description);
      if ScreenedText(title, description) != [] && IsFlagged(reply) {
        return Rejected;
      }
      var filename := "";
      if attachment != "" {
        if !IsAllowedImage(attachment) {
          return UnsupportedMedia;
        }
        filename := storedName;
        blobs := blobs + {storedName};
      }
      var post := UploadPost(id, t, kind.GetOr("announcement"), d, filename, caller.email);
      mem := [post] + mem;
      if !writeOk {
        return WriteFailed;
      }
      file := Stored(mem);
      r := Done;
    }

    /**
     * `delete_post`: admins only; `mem` loses every entry whose key is `postId` and is dumped
     * over the file. A failed write is reported, but `mem` has already changed.
     */
    method DeletePost(caller: Caller, postId: string, writeOk: bool) returns (r: Outcome)
      modifies this`mem, this`file
      ensures r == (if caller.role != "admin" then Forbidden else if writeOk then Done else WriteFailed)
      ensures r == Forbidden ==> mem == old(mem) && file == old(file)
      ensures r != Forbidden ==> mem == RemoveById(old(mem), postId)
      ensures r == Done ==> file == Stored(mem)
      ensures r == WriteFailed ==> file == old(file)
    {
      if caller.role != "admin" {
        return Forbidden;
      }
      mem := RemoveById(mem, postId);
      if !writeOk {
        return WriteFailed;
      }
      file := Stored(mem);
      r := Done;
    }
  }

  /** An executable upload attempt (`setup.exe`) is refused and changes neither copy nor the folder. */
  method NonImageUploadChangesNothing(disk: FeedFile, saved: set<string>, author: Caller, title: string,
                                      description: string, reply: Reply, id: string, writeOk: bool)
      returns (r: Outcome, mem: seq<Post>, file: FeedFile, blobs: set<string>)
    ensures r == Rejected || r == UnsupportedMedia
    ensures mem == PostsIn(disk) && file == disk && blobs == saved
  {
    var store := new FeedStore.Load(disk, saved);
    NonImagesRejected();
    UploadGuards(title, description, "setup.exe", reply, writeOk);
    r := store.Upload(author, title, None, description, "setup.exe", "setup.exe", reply, id, writeOk);
    mem, file, blobs := store.mem, store.file, store.blobs;
  }

  /**
   * The two copies drift: a post created through `home` reaches only the file, and the next
   * successful `upload` overwrites the file with `mem`, losing it.
   */
  method HomePostLostOnUpload(author: Caller, content: string, id1: string, id2: string)
      returns (final: FeedFile)
    requires Strip(content) != []
    ensures final == Stored([UploadPost(id2, "", "announcement", "", "", author.email)])
    ensures id1 != id2 ==> forall p :: p in final.posts ==> Key(p) != id1
  {
    var store := new FeedStore.Load(Missing, {});
    var r1 := store.CreatePost(Some(author), content, id1, None, true);
    assert r1 == Done && |store.file.posts| == 1 && store.mem == [];
    assert UploadOutcome("", "", "", NoApiKey, true) == Done by {
      UploadGuards("", "", "", NoApiKey, true);
    }
    var r2 := store.Upload(author, "", None, "", "", "", NoApiKey, id2, true);
    assert |store.file.posts| == 1 && store.file.posts[0].id == Some(id2);
    final := store.file;
  }
}
