/** Create-or-find of a folder over an unreliable server (`src/transfer.rs`). */
module Folders {
  import opened Bytes

  const PAGE := 50
  const FOLDER_CREATE_RETRIES := 2
  const RETRY_DELAYS_MS := [500, 1000]

  /** An entry of a folder listing; any of its fields may be missing. */
  datatype Entry = Entry(status: Option<string>, plainName: Option<string>, uuid: Option<string>)

  datatype CreateReply = Created(uuid: Option<string>) | Refused(message: string)

  datatype FolderError = CreateFailed(message: string) | LookupFailed

  predicate IsLive(e: Entry) {
    e.status.GetOr("") == "" || e.status.GetOr("") == "EXISTS"
  }

  predicate IsMatch(e: Entry, name: string) {
    IsLive(e) && e.plainName.GetOr("") == name && e.uuid.GetOr("") != ""
  }

  /** The linear search that the paged search refines. */
  function FirstMatch(entries: seq<Entry>, name: string): Option<string> {
    if entries == [] then None
    else if IsMatch(entries[0], name) then Some(entries[0].uuid.GetOr(""))
    else FirstMatch(entries[1..], name)
  }

  /** An entry that counts: live or without a status, of exactly that name, with that uuid. */
  ghost predicate Named(e: Entry, name: string, uuid: string) {
    && (e.status == None || e.status == Some("") || e.status == Some("EXISTS"))
    && (e.plainName == Some(name) || (e.plainName == None && name == ""))
    && e.uuid == Some(uuid) && uuid != ""
  }

  /** The search finds the uuid of the first entry that counts. */
  lemma {:induction false} FirstMatchIff(entries: seq<Entry>, name: string, uuid: string)
    ensures FirstMatch(entries, name) == Some(uuid) <==>
      exists k :: 0 <= k < |entries| && Named(entries[k], name, uuid) && forall j, u :: 0 <= j < k ==> !Named(entries[j], name, u)
    ensures FirstMatch(entries, name) == None <==> forall k, u :: 0 <= k < |entries| ==> !Named(entries[k], name, u)
  {
    if entries != [] {
      var rest := entries[1..];
      FirstMatchIff(rest, name, uuid);
      assert entries == [entries[0]] + rest;
      if IsMatch(entries[0], name) {
        assert Named(entries[0], name, entries[0].uuid.value);
      } else {
        assert forall u :: !Named(entries[0], name, u);
        assert forall k :: 0 < k < |entries| ==> entries[k] == rest[k - 1];
        if FirstMatch(rest, name) == Some(uuid) {
          var k :| 0 <= k < |rest| && Named(rest[k], name, uuid) && forall j, u :: 0 <= j < k ==> !Named(rest[j], name, u);
          assert Named(entries[k + 1], name, uuid);
        }
      }
    }
  }

  function PageAt(entries: seq<Entry>, offset: nat): seq<Entry> {
    Clip(entries, offset, offset + PAGE)
  }

  lemma {:induction false} FirstMatchPlus(a: seq<Entry>, b: seq<Entry>, name: string)
    ensures FirstMatch(a + b, name) == if FirstMatch(a, name).Some? then FirstMatch(a, name) else FirstMatch(b, name)
  {
    if a == [] {
      assert a + b == b;
    } else {
      assert (a + b)[1..] == a[1..] + b;
      FirstMatchPlus(a[1..], b, name);
    }
  }

  // ---- Error texts --------------------------------------------------------

  /** Lower case of the letters that can occur in the text looked for. */
  function Lower(s: string): string {
    seq(|s|, i requires 0 <= i < |s| => if 'A' <= s[i] <= 'Z' then (s[i] as int + 32) as char else s[i])
  }

  predicate Contains(s: string, t: string) {
    t <= s || (s != [] && Contains(s[1..], t))
  }

  predicate IsConflict(message: string) {
    Contains(Lower(message), "already exists")
  }

  const ALREADY_EXISTS := "already exists"

  /** The texts are equal but for the case of ASCII letters, `t` being in lower case. */
  ghost predicate SameButForCase(s: string, t: string) {
    && |s| == |t|
    && forall i :: 0 <= i < |s| ==> s[i] == t[i] || ('A' <= s[i] <= 'Z' && s[i] as nat + 32 == t[i] as nat)
  }

  predicate TextAt(s: string, k: nat, t: string) {
    k + |t| <= |s| && s[k..k + |t|] == t
  }

  lemma TextBehind(s: string, k: nat, t: string)
    requires s != []
    ensures TextAt(s, k + 1, t) <==> TextAt(s[1..], k, t)
  {
    if k + 1 + |t| <= |s| {
      var a, b := s[1..][k..k + |t|], s[k + 1..k + 1 + |t|];
      forall i | 0 <= i < |t|
        ensures a[i] == b[i]
      {
        assert a[i] == s[1..][k + i] == s[k + 1 + i];
      }
      assert a == b;
    }
  }

  lemma {:induction false} ContainsIff(s: string, t: string)
    ensures Contains(s, t) <==> exists k: nat :: TextAt(s, k, t)
  {
    if t <= s {
      assert TextAt(s, 0, t);
    } else if s != [] {
      ContainsIff(s[1..], t);
      forall k: nat
        ensures TextAt(s, k + 1, t) <==> TextAt(s[1..], k, t)
      {
        TextBehind(s, k, t);
      }
      if Contains(s, t) {
        var k: nat :| TextAt(s[1..], k, t);
        assert TextAt(s, k + 1, t);
      }
      if k: nat :| TextAt(s, k, t) {
        assert k > 0;
        assert TextAt(s, k - 1 + 1, t);
        assert TextAt(s[1..], k - 1, t);
      }
    }
  }

  /** From position `k` on the message says "already exists", in any case. */
  ghost predicate SaysExistsAt(message: string, k: nat) {
    k + 14 <= |message| && SameButForCase(message[k..k + 14], "already exists")
  }

  /** A message reports a conflict exactly when it says so somewhere. */
  lemma ConflictIff(message: string)
    ensures IsConflict(message) <==> exists k: nat :: SaysExistsAt(message, k)
  {
    ContainsIff(Lower(message), ALREADY_EXISTS);
    forall k: nat
      ensures TextAt(Lower(message), k, ALREADY_EXISTS) <==> SaysExistsAt(message, k)
    {
      if k + 14 <= |message| {
        LowerIs(message[k..k + 14]);
        assert Lower(message)[k..k + 14] == Lower(message[k..k + 14]);
      }
    }
  }

  lemma LowerIs(s: string)
    requires |s| == 14
    ensures Lower(s) == ALREADY_EXISTS <==> SameButForCase(s, ALREADY_EXISTS)
  {
    assert forall i :: 0 <= i < 14 ==> !('A' <= ALREADY_EXISTS[i] <= 'Z');
    if SameButForCase(s, ALREADY_EXISTS) {
      assert forall i :: 0 <= i < 14 ==> Lower(s)[i] == ALREADY_EXISTS[i];
    }
    if Lower(s) == ALREADY_EXISTS {
      forall i | 0 <= i < |s|
        ensures s[i] == ALREADY_EXISTS[i] || ('A' <= s[i] <= 'Z' && s[i] as nat + 32 == ALREADY_EXISTS[i] as nat)
      {
        assert Lower(s)[i] == ALREADY_EXISTS[i];
      }
    }
  }

  // ---- The server ---------------------------------------------------------

  /** Live folders of one parent have distinct names, and a uuid. */
  predicate WellNamed(folders: seq<Entry>) {
    && (forall i :: 0 <= i < |folders| && IsLive(folders[i]) ==> folders[i].uuid.GetOr("") != "")
    && (forall i, j :: 0 <= i < j < |folders| && IsLive(folders[i]) && IsLive(folders[j]) ==>
          folders[i].plainName.GetOr("") != folders[j].plainName.GetOr(""))
  }

  predicate HasLive(folders: seq<Entry>, name: string) {
    exists i :: 0 <= i < |folders| && IsLive(folders[i]) && folders[i].plainName.GetOr("") == name
  }

  /** `uuid` is that of the one live folder called `name`. */
  ghost predicate IsTheFolder(folders: seq<Entry>, name: string, uuid: string) {
    exists i :: 0 <= i < |folders| && IsMatch(folders[i], name) && folders[i].uuid.GetOr("") == uuid
  }

  lemma {:induction false} FirstMatchIsTheFolder(folders: seq<Entry>, name: string)
    requires WellNamed(folders)
    ensures FirstMatch(folders, name).None? <==> !HasLive(folders, name)
    ensures forall u :: FirstMatch(folders, name) == Some(u) <==> IsTheFolder(folders, name, u)
  {
    if folders != [] {
      assert folders == [folders[0]] + folders[1..];
      FirstMatchIsTheFolder(folders[1..], name);
    }
  }

  /** The API as seen for one parent folder. `creates` and `pages` count its requests. */
  class DriveApi {
    /** An unreliable API may fail to answer a request for a listing. */
    const reliable: bool
    var folders: seq<Entry>
    var creates: nat
    var pages: nat

    ghost predicate Valid()
      reads this
    {
      WellNamed(folders) && |folders| < U32_LIMIT
    }

    constructor (folders: seq<Entry>, reliable: bool)
      requires WellNamed(folders) && |folders| < U32_LIMIT
      ensures Valid() && this.folders == folders && this.reliable == reliable && creates == 0 && pages == 0
    {
      this.folders, this.reliable, creates, pages := folders, reliable, 0, 0;
    }

    /** Whatever other clients do between two of our requests. */
    method Others()
      requires Valid()
      modifies this`folders
      ensures Valid()
    {
      var now: seq<Entry> := *;
      if WellNamed(now) && |now| < U32_LIMIT {
        folders := now;
      }
    }

    /**
     A create request. The server may apply it and still report an error, or succeed without a uuid
     in the reply; it reports a conflict only when a live folder has the name.
     */
    method CreateFolder(name: string) returns (reply: CreateReply)
      requires Valid()
      modifies this`folders, this`creates
      ensures Valid() && creates == old(creates) + 1
      ensures reply.Created? && reply.uuid.GetOr("") != "" ==> IsTheFolder(folders, name, reply.uuid.value)
      ensures reply.Refused? && IsConflict(reply.message) ==> HasLive(folders, name)
      ensures old(folders) <= folders
    {
      creates := creates + 1;
      var uuid: string := *;
      var apply: bool := *;
      var lost: bool := *;
      if apply && !HasLive(folders, name) && uuid != "" && |folders| + 1 < U32_LIMIT {
        folders := folders + [Entry(Some("EXISTS"), Some(name), Some(uuid))];
        assert IsMatch(folders[|folders| - 1], name);
        if !lost {
          var told: bool := *;
          return Created(if told then Some(uuid) else None);
        }
      }
      var message: string := *;
      if IsConflict(message) && !HasLive(folders, name) {
        message := "";
      }
      reply := Refused(message);
    }

    /** One page of the listing, or None on an error. */
    method GetSubfolders(offset: nat) returns (page: Option<seq<Entry>>)
      requires offset < U32_LIMIT
      modifies this`pages
      ensures pages == old(pages) + 1
      ensures page.Some? ==> page.value == PageAt(folders, offset)
      ensures page.None? ==> !reliable
    {
      pages := pages + 1;
      if {
        case !reliable => page := None;
        case true => page := Some(PageAt(folders, offset));
      }
    }
  }

  // ---- The paged search ---------------------------------------------------

  /** The inner loop: the first match on one page. */
  method SearchPage(items: seq<Entry>, name: string) returns (found: Option<string>)
    ensures found == FirstMatch(items, name)
  {
    for i := 0 to |items|
      invariant FirstMatch(items, name) == FirstMatch(items[i..], name)
    {
      var item := items[i];
      var status := item.status.GetOr("");
      if status != "" && status != "EXISTS" {
        continue;
      }
      if item.plainName.GetOr("") == name {
        var uuid := item.uuid.GetOr("");
        if uuid != "" {
          return Some(uuid);
        }
      }
    }
    found := None;
  }

  /** Over a listing that stays as it is, the pages are searched as one list. */
  method FindExistingFolder(api: DriveApi, name: string) returns (r: Result<Option<string>, FolderError>)
    requires |api.folders| < U32_LIMIT
    modifies api`pages
    ensures r.Ok? ==> r.value == FirstMatch(api.folders, name)
    ensures r.Err? ==> r.error == LookupFailed && !api.reliable
    ensures old(api.pages) < api.pages <= old(api.pages) + |api.folders| / 50 + 1
    ensures r == Ok(None) ==> api.pages == old(api.pages) + |api.folders| / 50 + 1
  {
    var offset := 0;
    while true
      invariant offset <= |api.folders| && offset == PAGE * (api.pages - old(api.pages))
      invariant api.pages >= old(api.pages)
      invariant FirstMatch(api.folders[..offset], name).None?
      decreases |api.folders| - offset
    {
      ghost var all, before := api.folders, api.folders[..offset];
      var page := api.GetSubfolders(offset);
      if page.None? {
        return Err(LookupFailed);
      }
      var got := |page.value|;
      assert all[..offset + got] == before + page.value;
      FirstMatchPlus(before, page.value, name);
      FirstMatchPlus(before + page.value, all[offset + got..], name);
      assert all == before + page.value + all[offset + got..];
      var found := SearchPage(page.value, name);
      if found.Some? {
        return Ok(found);
      }
      if got < PAGE {
        return Ok(None);
      }
      assert offset + got < U32_LIMIT;
      offset := offset + got;
    }
  }

  // ---- Create, retry, find ------------------------------------------------

  /** What the result of create-or-find promises about the folders as they are when it returns. */
  ghost predicate Promised(folders: seq<Entry>, name: string, r: Result<Option<string>, FolderError>) {
    match r
    case Ok(Some(u)) => u != "" ==> IsTheFolder(folders, name, u)
    case Ok(None) => !HasLive(folders, name)
    case Err(_) => true
  }

  /**
   Creates the folder, retrying after errors other than a conflict, and looks an existing one up.
   `delays` are the backoff times slept and `last` is the last reply to a create.
   */
  method CreateFolderWithRetry(api: DriveApi, name: string)
    returns (r: Result<Option<string>, FolderError>, delays: seq<nat>, last: CreateReply)
    requires api.Valid()
    modifies api
    ensures api.Valid() && Promised(api.folders, name, r)
    ensures old(api.creates) < api.creates <= old(api.creates) + 3
    ensures |delays| == api.creates - old(api.creates) - 1 && delays <= [500, 1000]
    ensures last.Created? ==> r == Ok(Some(last.uuid.GetOr(""))) && api.pages == old(api.pages)
    ensures last.Refused? && IsConflict(last.message) ==>
      && api.pages > old(api.pages)
      && (r.Ok? ==> r.value != Some(""))
      && (r.Err? ==> r.error == LookupFailed && !api.reliable)
    ensures last.Refused? && !IsConflict(last.message) ==>
      && r == Err(CreateFailed(last.message))
      && api.pages == old(api.pages) && api.creates == old(api.creates) + 3
  {
    delays := [];
    var attempt := 0;
    while true
      invariant api.Valid() && attempt <= FOLDER_CREATE_RETRIES
      invariant api.creates == old(api.creates) + attempt && api.pages == old(api.pages)
      invariant delays == RETRY_DELAYS_MS[..attempt]
      decreases FOLDER_CREATE_RETRIES - attempt
    {
      api.Others();
      last := api.CreateFolder(name);
      if last.Created? {
        return Ok(Some(last.uuid.GetOr(""))), delays, last;
      }
      if IsConflict(last.message) {
        api.Others();
        r := FindExistingFolder(api, name);
        FirstMatchIsTheFolder(api.folders, name);
        return;
      }
      if attempt >= FOLDER_CREATE_RETRIES {
        return Err(CreateFailed(last.message)), delays, last;
      }
      delays := delays + [RETRY_DELAYS_MS[attempt]];
      attempt := attempt + 1;
    }
  }
}
