/** Keys of stored objects: every key starts with its owner, and a page's files share a prefix. */
module TenantPaths {
  import opened Wrappers

  /** The organization when there is one, else the user; an empty organization is none. */
  function TenantOwnerPrefix(organizationId: Option<string>, userId: string): string {
    if organizationId.Some? && organizationId.value != "" then organizationId.value else userId
  }

  function BuildTenantStoragePath(organizationId: Option<string>, userId: string, sub: string): string {
    TenantOwnerPrefix(organizationId, userId) + "/" + sub
  }

  function BuildFramePageFilesPrefix(organizationId: Option<string>, userId: string, frameId: string): string {
    BuildTenantStoragePath(organizationId, userId, "frames/" + frameId + "/files/")
  }

  function BuildFramePageFilePath(organizationId: Option<string>, userId: string, frameId: string, fileId: string)
    : string
  {
    BuildFramePageFilesPrefix(organizationId, userId, frameId) + fileId
  }

  predicate IsTenantOwnedKey(key: string, organizationId: Option<string>, userId: string) {
    var owner := TenantOwnerPrefix(organizationId, userId);
    key == owner || owner + "/" <= key
  }

  predicate SlashFree(text: string) { '/' !in text }

  /** The part of a key before its first slash. */
  function FirstSegment(key: string): (segment: string)
    ensures segment <= key && SlashFree(segment)
    ensures |segment| < |key| ==> key[|segment|] == '/'
  {
    if key == "" || key[0] == '/' then "" else [key[0]] + FirstSegment(key[1..])
  }

  /** Whatever follows it, a slash-free part before a slash is the first segment. */
  lemma {:induction false} SegmentOf(part: string, rest: string)
    requires SlashFree(part)
    ensures FirstSegment(part) == part
    ensures FirstSegment(part + "/" + rest) == part
  {
    var key := part + "/" + rest;
    if part != "" {
      SegmentOf(part[1..], rest);
      assert key[1..] == part[1..] + "/" + rest;
    }
  }

  /**
   * For slash-free owner ids, a key is owned by exactly the organization, or else the user, that
   * its first segment names.
   */
  lemma OwnedByFirstSegment(key: string, organizationId: Option<string>, userId: string)
    requires SlashFree(TenantOwnerPrefix(organizationId, userId))
    ensures IsTenantOwnedKey(key, organizationId, userId)
        <==> FirstSegment(key) == if organizationId in {None, Some("")} then userId else organizationId.value
  {
    var owner := TenantOwnerPrefix(organizationId, userId);
    SegmentOf(owner, "");
    if owner + "/" <= key {
      assert key == owner + "/" + key[|owner| + 1..];
      SegmentOf(owner, key[|owner| + 1..]);
    }
    if FirstSegment(key) == owner && |owner| < |key| {
      assert key[..|owner| + 1] == owner + "/";
    }
  }

  /** What is left of a key after its first segment and the slash. */
  lemma AfterSegment(part: string, rest: string)
    ensures (part + "/" + rest)[|part| + 1..] == rest
  {
  }

  /** A prefix with a slash-free part before a slash: the key has the same part there. */
  lemma SameSegment(part: string, rest: string, part': string, rest': string)
    requires SlashFree(part) && SlashFree(part')
    requires part + "/" + rest <= part' + "/" + rest'
    ensures part == part' && rest <= rest'
  {
    var prefix, key := part + "/" + rest, part' + "/" + rest';
    assert key == part + "/" + (rest + key[|prefix|..]);
    SegmentOf(part, rest + key[|prefix|..]);
    SegmentOf(part', rest');
    AfterSegment(part, rest + key[|prefix|..]);
    AfterSegment(part', rest');
    assert rest' == rest + key[|prefix|..];
  }

  /**
   * For slash-free ids, a page's prefix starts a file's key only when the file is the page's own:
   * the same owner and the same page. So deleting by prefix never reaches another page or owner.
   */
  lemma PrefixesAreDisjoint(
      org: Option<string>, user: string, frame: string,
      org': Option<string>, user': string, frame': string, file: string)
    requires SlashFree(TenantOwnerPrefix(org, user)) && SlashFree(TenantOwnerPrefix(org', user'))
    requires SlashFree(frame) && SlashFree(frame')
    ensures BuildFramePageFilesPrefix(org, user, frame) <= BuildFramePageFilePath(org', user', frame', file)
        <==> TenantOwnerPrefix(org, user) == TenantOwnerPrefix(org', user') && frame == frame'
  {
    var owner, owner' := TenantOwnerPrefix(org, user), TenantOwnerPrefix(org', user');
    var prefix, key := BuildFramePageFilesPrefix(org, user, frame), BuildFramePageFilePath(org', user', frame', file);
    var sub, sub' := frame + "/" + "files/", frame' + "/" + ("files/" + file);
    assert prefix == owner + "/" + ("frames" + "/" + sub);
    assert key == owner' + "/" + ("frames" + "/" + sub');
    if prefix <= key {
      SameSegment(owner, "frames" + "/" + sub, owner', "frames" + "/" + sub');
      SameSegment("frames", sub, "frames", sub');
      SameSegment(frame, "files/", frame', "files/" + file);
    }
  }

  /**
   * Without that, exactly which pages of one owner share a key: those whose ids, each followed by
   * the directory of its files, start one another. So slashes in an id can make two pages meet.
   */
  lemma PagesMeetExactly(org: Option<string>, user: string, frame: string, frame': string)
    ensures (exists file, file' ::
               BuildFramePageFilePath(org, user, frame, file) == BuildFramePageFilePath(org, user, frame', file'))
        <==> frame + "/files/" <= frame' + "/files/" || frame' + "/files/" <= frame + "/files/"
  {
    var one, other := frame + "/files/", frame' + "/files/";
    forall file, file'
      ensures BuildFramePageFilePath(org, user, frame, file) == BuildFramePageFilePath(org, user, frame', file')
          <==> one + file == other + file'
    {
      SameStart(TenantOwnerPrefix(org, user) + "/frames/", one + file, other + file');
      PathParts(org, user, frame, file);
      PathParts(org, user, frame', file');
    }
    MeetExactly(one, other);
  }

  lemma PathParts(org: Option<string>, user: string, frame: string, file: string)
    ensures BuildFramePageFilePath(org, user, frame, file)
         == TenantOwnerPrefix(org, user) + "/frames/" + (frame + "/files/" + file)
    ensures TenantOwnerPrefix(org, user) == if org in {None, Some("")} then user else org.value
  {
    var owner := TenantOwnerPrefix(org, user);
    assert owner + "/" + ("frames/" + frame + "/files/") + file == owner + "/frames/" + (frame + "/files/" + file);
  }

  lemma SameStart(start: string, a: string, b: string)
    ensures start + a == start + b <==> a == b
  {
    assert (start + a)[|start|..] == a && (start + b)[|start|..] == b;
  }

  lemma MeetExactly(one: string, other: string)
    ensures (exists file, file' :: one + file == other + file') <==> one <= other || other <= one
  {
    if file, file' :| one + file == other + file' {
      assert (one + file)[..|one|] == one && (other + file')[..|other|] == other;
    }
    if one <= other { assert one + other[|one|..] == other + ""; }
    if other <= one { assert one + "" == other + one[|other|..]; }
  }

  /** For instance, a page whose id continues another's through its directory of files. */
  lemma SlashesCollide(org: Option<string>, user: string, frame: string, more: string)
    ensures var other := frame + "/files/" + more;
            BuildFramePageFilesPrefix(org, user, frame) <= BuildFramePageFilesPrefix(org, user, other)
  {
    var other := frame + "/files/" + more;
    assert BuildFramePageFilesPrefix(org, user, other)
        == BuildFramePageFilesPrefix(org, user, frame) + (more + "/files/");
  }
}

/** Sequences filtered in order. */
module Keeping {
  function Keep<T>(items: seq<T>, p: T -> bool): seq<T> {
    if items == [] then []
    else
      var front := Keep(items[..|items| - 1], p);
      if p(items[|items| - 1]) then front + [items[|items| - 1]] else front
  }

  function Both<T>(p: T -> bool, q: T -> bool): T -> bool { x => p(x) && q(x) }

  function Not<T>(p: T -> bool): T -> bool { x => !p(x) }

  lemma {:induction false} KeepMembers<T>(items: seq<T>, p: T -> bool)
    ensures forall x :: x in Keep(items, p) <==> x in items && p(x)
  {
    if items != [] {
      KeepMembers(items[..|items| - 1], p);
      assert items == items[..|items| - 1] + [items[|items| - 1]];
    }
  }

  lemma {:induction false} KeepSame<T>(items: seq<T>, p: T -> bool, q: T -> bool)
    requires forall x :: x in items ==> p(x) == q(x)
    ensures Keep(items, p) == Keep(items, q)
  {
    if items != [] {
      KeepSame(items[..|items| - 1], p, q);
    }
  }

  lemma {:induction false} KeepKeep<T>(items: seq<T>, p: T -> bool, q: T -> bool)
    ensures Keep(Keep(items, p), q) == Keep(items, Both(p, q))
  {
    if items != [] {
      var front, last := items[..|items| - 1], items[|items| - 1];
      KeepKeep(front, p, q);
      if p(last) {
        assert (Keep(front, p) + [last])[..|Keep(front, p)|] == Keep(front, p);
      }
    }
  }

  lemma {:induction false} KeepEvery<T>(items: seq<T>, p: T -> bool)
    requires forall x :: x in items ==> p(x)
    ensures Keep(items, p) == items
  {
    if items != [] {
      KeepEvery(items[..|items| - 1], p);
      assert items == items[..|items| - 1] + [items[|items| - 1]];
    }
  }

  lemma {:induction false} KeepNone<T>(items: seq<T>, p: T -> bool)
    requires forall x :: x in items ==> !p(x)
    ensures Keep(items, p) == []
  {
    if items != [] {
      KeepNone(items[..|items| - 1], p);
    }
  }

  lemma {:induction false} KeepCut<T>(a: seq<T>, b: seq<T>, p: T -> bool)
    ensures Keep(a + b, p) == Keep(a, p) + Keep(b, p)
    decreases |b|
  {
    if b == [] {
      assert a + b == a;
    } else {
      assert (a + b)[..|a + b| - 1] == a + b[..|b| - 1];
      KeepCut(a, b[..|b| - 1], p);
    }
  }

  lemma {:induction false} KeepCount<T>(items: seq<T>, p: T -> bool)
    ensures |Keep(items, p)| + |Keep(items, Not(p))| == |items|
  {
    if items != [] {
      KeepCount(items[..|items| - 1], p);
    }
  }
}

/** Deleting all files of a page: keys are listed a page at a time, and deleted as they are listed. */
module PageFiles {
  import opened TenantPaths
  import opened Keeping
  import opened Wrappers

  /** The order in which the store lists its keys. */
  predicate Less(a: string, b: string) {
    if b == "" then false
    else if a == "" then true
    else a[0] < b[0] || (a[0] == b[0] && Less(a[1..], b[1..]))
  }

  lemma {:induction false} LessIsStrict(a: string)
    ensures !Less(a, a)
  {
    if a != "" { LessIsStrict(a[1..]); }
  }

  lemma {:induction false} LessIsTransitive(a: string, b: string, c: string)
    requires Less(a, b) && Less(b, c)
    ensures Less(a, c)
  {
    if a != "" && a[0] == b[0] == c[0] { LessIsTransitive(a[1..], b[1..], c[1..]); }
  }

  ghost predicate Sorted(keys: seq<string>) {
    forall i, j :: 0 <= i < j < |keys| ==> Less(keys[i], keys[j])
  }

  /** Which keys a listing covers, and which survive a deletion. */
  function Under(prefix: string): string -> bool { key => prefix <= key }
  function After(token: Option<string>): string -> bool { key => token.None? || Less(token.value, key) }
  function In(keys: set<string>): string -> bool { key => key in keys }
  function Spared(tried: seq<string>, stuck: set<string>): string -> bool { key => key !in tried || key in stuck }

  lemma SortedAppend(keys: seq<string>, key: string)
    requires Sorted(keys) && forall k :: k in keys ==> Less(k, key)
    ensures Sorted(keys + [key])
  {
    hide Less;
    var more := keys + [key];
    forall i, j | 0 <= i < j < |more|
      ensures Less(more[i], more[j])
    {
      assert more[i] == keys[i] && keys[i] in keys;
    }
  }

  lemma {:induction false} SortedKeep(keys: seq<string>, p: string -> bool)
    requires Sorted(keys)
    ensures Sorted(Keep(keys, p))
  {
    hide Less;
    if keys != [] {
      var front, last := keys[..|keys| - 1], keys[|keys| - 1];
      SortedKeep(front, p);
      KeepMembers(front, p);
      if p(last) {
        SortedAppend(Keep(front, p), last);
      }
    }
  }

  lemma NotAfter(files: seq<string>, m: nat, k: string)
    requires Sorted(files) && 0 < m <= |files| && k in files[..m]
    ensures !Less(files[m - 1], k)
  {
    hide Less;
    LessIsStrict(files[m - 1]);
    if Less(files[m - 1], k) && Less(k, files[m - 1]) {
      LessIsTransitive(files[m - 1], k, files[m - 1]);
    }
  }

  /** In key order, the keys after the `m`th are those greater than it. */
  lemma SortedAfter(files: seq<string>, m: nat)
    requires Sorted(files) && 0 < m <= |files|
    ensures Keep(files, After(Some(files[m - 1]))) == files[m..]
  {
    hide Less, Keep;
    var after := After(Some(files[m - 1]));
    forall k | k in files[..m]
      ensures !after(k)
    {
      NotAfter(files, m, k);
    }
    KeepNone(files[..m], after);
    forall k | k in files[m..]
      ensures after(k)
    {
      var j :| m <= j < |files| && files[j] == k;
      assert Less(files[m - 1], files[j]);
    }
    KeepEvery(files[m..], after);
    KeepCut(files[..m], files[m..], after);
    assert files[..m] + files[m..] == files;
  }

  datatype Listing = Listing(keys: seq<string>, next: Option<string>)

  datatype Outcome = Deleted(deleted: nat) | NotDeleted(failed: nat)

  /** A store that lists in key order and whose tokens name the last key listed. */
  class ObjectStore {
    var keys: seq<string>
    /** The keys whose deletion fails. */
    const stuck: set<string>

    constructor (keys: seq<string>, stuck: set<string>)
      ensures this.keys == keys && this.stuck == stuck
    {
      this.keys, this.stuck := keys, stuck;
    }

    /** The keys under a prefix, after the one the token names. */
    function Listed(prefix: string, token: Option<string>): seq<string>
      reads this
    {
      Keep(keys, Both(Under(prefix), After(token)))
    }

    /** Some of the keys not listed yet, in order, and a token when there are more. */
    method ListObjects(prefix: string, token: Option<string>) returns (listing: Listing)
      ensures listing.keys <= Listed(prefix, token)
      ensures listing.keys == [] ==> Listed(prefix, token) == []
      ensures listing.next.Some? <==> listing.keys != Listed(prefix, token)
      ensures listing.next.Some? ==> listing.next.value == listing.keys[|listing.keys| - 1]
    {
      var all := Listed(prefix, token);
      if all == [] {
        return Listing([], None);
      }
      var n: nat :| 0 < n <= |all|;
      return Listing(all[..n], if n < |all| then Some(all[n - 1]) else None);
    }

    /** Tries to delete each key; those that fail stay. */
    method DeleteObjects(page: seq<string>) returns (deleted: nat, errors: nat)
      modifies this
      ensures keys == Keep(old(keys), Spared(page, stuck))
      ensures deleted == |Keep(page, Not(In(stuck)))| && errors == |Keep(page, In(stuck))|
    {
      deleted, errors := |Keep(page, Not(In(stuck)))|, |Keep(page, In(stuck))|;
      keys := Keep(keys, Spared(page, stuck));
    }
  }

  /** The token that names the `m`th file. */
  function TokenAt(files: seq<string>, m: nat): Option<string>
    requires m <= |files|
  {
    if m == 0 then None else Some(files[m - 1])
  }

  /** After the first `m` keys of the page were tried, the store lists exactly the others. */
  lemma StillListed(all: seq<string>, prefix: string, stuck: set<string>, m: nat)
    requires Sorted(all) && m <= |Keep(all, Under(prefix))|
    ensures var files := Keep(all, Under(prefix));
            Keep(Keep(all, Spared(files[..m], stuck)), Both(Under(prefix), After(TokenAt(files, m)))) == files[m..]
  {
    var files := Keep(all, Under(prefix));
    var kept, after := Spared(files[..m], stuck), After(TokenAt(files, m));
    var listed := Both(Under(prefix), after);
    KeepKeep(all, kept, listed);
    KeepKeep(all, Under(prefix), after);
    SortedKeep(all, Under(prefix));
    forall k | k in all
      ensures Both(kept, listed)(k) == listed(k)
    {
      if k in files[..m] {
        NotAfter(files, m, k);
      }
    }
    KeepSame(all, Both(kept, listed), listed);
    if m == 0 {
      KeepEvery(files, after);
    } else {
      SortedAfter(files, m);
    }
  }

  /** Trying a few keys more. */
  lemma TriedMore(all: seq<string>, a: seq<string>, b: seq<string>, stuck: set<string>)
    ensures Keep(Keep(all, Spared(a, stuck)), Spared(b, stuck)) == Keep(all, Spared(a + b, stuck))
  {
    KeepKeep(all, Spared(a, stuck), Spared(b, stuck));
    KeepSame(all, Both(Spared(a, stuck), Spared(b, stuck)), Spared(a + b, stuck));
  }

  /** What survives under the prefix once every key was tried. */
  lemma Survivors(all: seq<string>, prefix: string, stuck: set<string>)
    ensures var files := Keep(all, Under(prefix));
            Keep(Keep(all, Spared(files, stuck)), Under(prefix)) == Keep(files, In(stuck))
  {
    var files := Keep(all, Under(prefix));
    KeepMembers(all, Under(prefix));
    KeepKeep(all, Spared(files, stuck), Under(prefix));
    KeepKeep(all, Under(prefix), In(stuck));
    KeepSame(all, Both(Spared(files, stuck), Under(prefix)), Both(Under(prefix), In(stuck)));
  }

  /** Keys outside the page's prefix are as they were. */
  lemma OthersAreKept(all: seq<string>, prefix: string, stuck: set<string>)
    ensures var files := Keep(all, Under(prefix));
            Keep(Keep(all, Spared(files, stuck)), Not(Under(prefix))) == Keep(all, Not(Under(prefix)))
  {
    var files := Keep(all, Under(prefix));
    KeepMembers(all, Under(prefix));
    KeepKeep(all, Spared(files, stuck), Not(Under(prefix)));
    KeepSame(all, Both(Spared(files, stuck), Not(Under(prefix))), Not(Under(prefix)));
  }

  /**
   * Deletes every file of a page. Every key under the page's prefix is tried exactly once, in key
   * order, though the loop deletes as it lists; every other key stays. A normal return leaves no
   * file, and a failure counts exactly the files that are left.
   */
  method DeleteFramePageFiles(
      organizationId: Option<string>, userId: string, frameId: string, store: ObjectStore)
    returns (outcome: Outcome, ghost tried: seq<string>)
    requires Sorted(store.keys)
    modifies store
    ensures var prefix := BuildFramePageFilesPrefix(organizationId, userId, frameId);
            var files := Keep(old(store.keys), Under(prefix));
            var left := Keep(store.keys, Under(prefix));
            && tried == files
            && (forall key :: key in tried <==> key in old(store.keys) && prefix <= key)
            && (forall key :: key in store.keys <==>
                  key in old(store.keys) && (prefix <= key ==> key in store.stuck))
            && Keep(store.keys, Not(Under(prefix))) == Keep(old(store.keys), Not(Under(prefix)))
            && left == Keep(files, In(store.stuck))
            && outcome == if left == [] then Deleted(|files|) else NotDeleted(|left|)
  {
    hide BuildFramePageFilesPrefix, Sorted, Less, Keep, Under, In, Not, Spared;
    var prefix := BuildFramePageFilesPrefix(organizationId, userId, frameId);
    ghost var all := store.keys;
    ghost var files := Keep(all, Under(prefix));
    var deleted, failed := 0, 0;
    var token: Option<string> := None;
    tried := [];
    NothingTriedYet(all, store.stuck);
    while true
      invariant tried <= files
      invariant store.keys == Keep(all, Spared(tried, store.stuck))
      invariant token == TokenAt(files, |tried|)
      invariant deleted == |Keep(tried, Not(In(store.stuck)))|
      invariant failed == |Keep(tried, In(store.stuck))|
      decreases |files| - |tried|
    {
      assert tried == files[..|tried|];
      StillListed(all, prefix, store.stuck, |tried|);
      var listing := store.ListObjects(prefix, token);
      var keys := listing.keys;
      if |keys| > 0 {
        var removed, errors := store.DeleteObjects(keys);
        TriedMore(all, tried, keys, store.stuck);
        KeepCut(tried, keys, Not(In(store.stuck)));
        KeepCut(tried, keys, In(store.stuck));
        deleted := deleted + removed;
        failed := failed + errors;
        assert tried + keys <= files;
        tried := tried + keys;
      }
      token := listing.next;
      if token.None? {
        break;
      }
    }
    Survivors(all, prefix, store.stuck);
    OthersAreKept(all, prefix, store.stuck);
    KeepCount(files, In(store.stuck));
    MembersAfter(all, prefix, store.stuck);
    outcome := if failed > 0 then NotDeleted(failed) else Deleted(deleted);
  }

  /** The keys, one by one: those under the prefix were tried, and only those that fail are left of them. */
  lemma MembersAfter(all: seq<string>, prefix: string, stuck: set<string>)
    ensures var files := Keep(all, Under(prefix));
            && (forall key :: key in files <==> key in all && prefix <= key)
            && (forall key :: key in Keep(all, Spared(files, stuck)) <==>
                  key in all && (prefix <= key ==> key in stuck))
  {
    KeepMembers(all, Under(prefix));
    KeepMembers(all, Spared(Keep(all, Under(prefix)), stuck));
  }

  lemma NothingTriedYet(all: seq<string>, stuck: set<string>)
    ensures Keep(all, Spared([], stuck)) == all
    ensures Keep([], In(stuck)) == [] && Keep([], Not(In(stuck))) == []
  {
    KeepEvery(all, Spared([], stuck));
  }

  /** Another page's file stays, whatever page of whatever owner is deleted, when ids are slash-free. */
  lemma OtherPagesAreKept(
      org: Option<string>, user: string, frame: string, org': Option<string>, user': string, frame': string,
      file: string, before: seq<string>, after: seq<string>)
    requires SlashFree(TenantOwnerPrefix(org, user)) && SlashFree(TenantOwnerPrefix(org', user'))
    requires SlashFree(frame) && SlashFree(frame')
    requires TenantOwnerPrefix(org, user) != TenantOwnerPrefix(org', user') || frame != frame'
    requires var prefix := BuildFramePageFilesPrefix(org, user, frame);
             Keep(after, Not(Under(prefix))) == Keep(before, Not(Under(prefix)))
    ensures var key := BuildFramePageFilePath(org', user', frame', file);
            key in after <==> key in before
  {
    var outside := Not(Under(BuildFramePageFilesPrefix(org, user, frame)));
    var key := BuildFramePageFilePath(org', user', frame', file);
    PrefixesAreDisjoint(org, user, frame, org', user', frame', file);
    KeepMembers(before, outside);
    KeepMembers(after, outside);
    assert key in Keep(after, outside) <==> key in Keep(before, outside);
  }
}
