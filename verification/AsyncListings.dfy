/** Asynchronous listings: each request fills one response array and leaves the listing paused. */
module AsyncListings {
  import opened FileSystems
  import opened ListingSpec
  import opened ListingProofs
  import opened ListingRoom
  import opened PathBuffers
  import opened DirectoryListings

  /** What a response array holds; a record takes two slots. */
  datatype CObject = Null | Tag(kind: ListType) | Bytes(path: string) | Failure(path: string)

  function RecordOf(tag: CObject, arg: CObject): (r: Record)
  {
    Record(if tag.Tag? then tag.kind else ListDone, if arg.Bytes? || arg.Failure? then arg.path else "")
  }

  function Decoded(objects: seq<CObject>): (rs: seq<Record>)
    ensures |rs| == |objects| / 2
  {
    var n := |objects|;
    if n < 2 then [] else Decoded(objects[..n - 2]) + [RecordOf(objects[n - 2], objects[n - 1])]
  }

  lemma DecodedAppend(objects: seq<CObject>, tag: CObject, arg: CObject)
    ensures Decoded(objects + [tag, arg]) == Decoded(objects) + [RecordOf(tag, arg)]
  {
    assert (objects + [tag, arg])[..|objects|] == objects;
  }

  /** A root path as the library passes it, and room in the path buffer for everything it leads to. */
  ghost predicate Listable(fs: FileSystem, root: string, o: Options)
  {
    WellFormed(fs) && NUL !in root && EndsWithSeparator(root) && |root| + 2 < PATH_MAX && Fit(Listing(fs, o, root))
  }

  class AsyncDirectoryListing {
    const listing: DirectoryListing
    var response: array<CObject>
    var index: nat
    var length: nat

    constructor (fs: FileSystem, root: string, options: Options)
      requires NUL !in root
      ensures listing.fs == fs && listing.options == options && index == 0 && length == 0
      ensures fresh(listing) && fresh(listing.pathBuffer) && fresh(listing.pathBuffer.data) && fresh(listing.heap)
      ensures fresh(listing.entries)
      ensures listing.error <==> |root| > PATH_MAX
      ensures |root| < PATH_MAX ==> listing.Valid() && listing.View() == Start(root)
      ensures Listable(fs, root, options) ==> Valid()
    {
      listing := new DirectoryListing(fs, root, options);
      response := new CObject[0];
      index, length := 0, 0;
      new;
      if Listable(fs, root, options) {
        RoomyStart(fs, options, root);
      }
    }

    ghost predicate ResponseOk()
      reads `response, `index, `length
    {
      length % 2 == 0 && index % 2 == 0 && index <= length <= response.Length
    }

    ghost function Records(): (rs: seq<Record>)
      requires ResponseOk()
      reads `response, `index, `length, response
    {
      Decoded(response[..index])
    }

    /** The listing is in order and everything to come fits its path buffer. */
    ghost predicate Valid()
      reads listing, listing.pathBuffer, listing.pathBuffer.data, listing.heap, listing.entries
    {
      && listing.Valid() && WellFormed(listing.fs) && StackOk(listing.fs, listing.stack, listing.path)
      && Roomy(listing.fs, listing.options, listing.View())
    }

    method SetArray(objects: array<CObject>, length: nat)
      requires length % 2 == 0 && length <= objects.Length
      modifies `response, `index, `length
      ensures ResponseOk() && response == objects && index == 0 && this.length == length && Records() == []
    {
      response, index, this.length := objects, 0, length;
    }

    method AddFileSystemEntityToResponse(kind: ListType, arg: CObject) returns (more: bool)
      requires ResponseOk() && index < length
      modifies `index, response
      ensures ResponseOk() && Records() == old(Records()) + [RecordOf(Tag(kind), arg)] && index == old(index) + 2
      ensures more <==> index < length
    {
      ghost var before := response[..index];
      response[index] := Tag(kind);
      response[index + 1] := arg;
      index := index + 2;
      assert response[..index] == before + [Tag(kind), arg];
      DecodedAppend(before, Tag(kind), arg);
      more := index < length;
    }

    /** Hands one step's report to the response; whether the listing may go on. */
    method Respond(kind: ListType, path: string) returns (more: bool)
      requires ResponseOk() && index < length
      modifies `index, response
      ensures ResponseOk() && Records() == old(Records()) + Handed(kind, path, listing.top == null)
      ensures index == old(index) + 2 * |Handed(kind, path, listing.top == null)|
      ensures more <==> index < length && (kind == ListDone ==> listing.top != null)
    {
      hide Records;
      match kind
      case ListDone =>
        if listing.top == null {
          var _ := AddFileSystemEntityToResponse(ListDone, Null);
          more := false;
        } else {
          more := true;
        }
      case ListError => more := AddFileSystemEntityToResponse(ListError, Failure(path));
      case ListFile => more := AddFileSystemEntityToResponse(ListFile, Bytes(path));
      case ListLink => more := AddFileSystemEntityToResponse(ListLink, Bytes(path));
      case ListDirectory => more := AddFileSystemEntityToResponse(ListDirectory, Bytes(path));
    }

    /** One step of the listing; its records go into the response. */
    method ListNext() returns (more: bool)
      requires Valid() && ResponseOk() && listing.stack != [] && index < length
      modifies `index, response, listing, listing.pathBuffer, listing.pathBuffer.data, listing.heap, listing.top
      ensures Valid() && ResponseOk() && Stepped(old(listing.View()), old(Records()))
      ensures more <==> listing.stack != [] && index < length
      ensures index == old(index) + 2 * |ListingSpec.ListNext(listing.fs, listing.options, old(listing.View())).1|
      ensures forall e :: e in listing.entries ==> e in old(listing.entries) || fresh(e)
    {
      hide StackOk, WellFormed, Roomy, DirectoryListing.Valid, ListingSpec.ListNext, StepReady, ResponseOk, Records;
      var kind, path := listing.Step();
      more := Respond(kind, path);
    }

    /** The listing has made one step from `m` and added its records to `rs`. */
    ghost predicate Stepped(m: Machine, rs: seq<Record>)
      requires ResponseOk()
      reads this, response, listing, listing.pathBuffer, listing.pathBuffer.data, listing.heap, listing.entries
    {
      && StepReady(listing.fs, m)
      && listing.View() == ListingSpec.ListNext(listing.fs, listing.options, m).0
      && Records() == rs + ListingSpec.ListNext(listing.fs, listing.options, m).1
    }

    /** Runs the listing until the response is full or the listing is finished. */
    method List()
      requires Valid() && ResponseOk() && listing.stack != [] && index == 0 < length && Records() == []
      modifies `index, response, listing, listing.pathBuffer, listing.pathBuffer.data, listing.heap, listing.entries
      ensures Valid() && ResponseOk()
      ensures forall e :: e in listing.entries ==> e in old(listing.entries) || fresh(e)
      ensures (listing.View(), Records()) == Fill(listing.fs, listing.options, old(listing.View()), length, 0)
    {
      hide StackOk, WellFormed, Roomy, DirectoryListing.Valid, ListingSpec.ListNext, ResponseOk, Records, Fill, Pending,
           Continued, StepReady;
      ghost var fs, o, m := listing.fs, listing.options, listing.View();
      ghost var all := Fill(fs, o, m, length, 0);
      NothingYet(fs, o, m, length);
      var more := true;
      while more
        invariant Valid() && ResponseOk()
        invariant forall e :: e in listing.entries ==> e in old(listing.entries) || fresh(e)
        invariant more ==> listing.stack != [] && index < length
        invariant more ==> all == Continued(fs, o, listing.View(), length, index, Records())
        invariant !more ==> all == (listing.View(), Records())
        decreases |Pending(fs, o, listing.View())|, |listing.stack|, more
      {
        ghost var before, rs, used := listing.View(), Records(), index;
        StepCorrect(fs, o, before);
        FillUnfold(fs, o, before, length, used, rs);
        listing.TopListed();
        more := ListNext();
      }
    }

    /** Answers a request with a response of at most `length` slots. */
    method ListNextRequest(length: nat) returns (answer: seq<CObject>)
      requires Valid() && ChunkOk(length)
      modifies this, listing, listing.pathBuffer, listing.pathBuffer.data, listing.heap, listing.entries
      ensures Valid()
      ensures forall e :: e in listing.entries ==> e in old(listing.entries) || fresh(e)
      ensures (listing.View(), Decoded(answer)) == Request(listing.fs, listing.options, old(listing.View()), length)
    {
      hide StackOk, WellFormed, Roomy, DirectoryListing.StackValid, DirectoryListing.PathValid, Fill;
      listing.TopIsLast();
      if listing.top == null {
        return [];
      }
      var objects := new CObject[length];
      SetArray(objects, length);
      List();
      answer := response[..index];
    }

    /** Abandons the listing: nothing is left open and every link has been deleted. */
    method ListStopRequest()
      requires listing.Valid()
      modifies listing, listing.heap, listing.entries
      ensures listing.Valid() && listing.stack == [] && listing.top == null && listing.heap.freed == listing.heap.made
    {
      hide DirectoryListing.StackValid, DirectoryListing.PathValid;
      listing.PopAll();
    }
  }

  /**
   * Lists a directory with a series of requests of any even lengths: what they hand out is the beginning of the
   * preorder walk and its final record, and all of it once the listing is finished, as after enough requests.
   */
  method ListWith(fs: FileSystem, root: string, options: Options, lengths: seq<nat>)
    returns (records: seq<Record>, finished: bool)
    requires Listable(fs, root, options) && forall i :: 0 <= i < |lengths| ==> ChunkOk(lengths[i])
    ensures records <= Listing(fs, options, root) + [DONE]
    ensures finished ==> records == Listing(fs, options, root) + [DONE]
    ensures |lengths| > |Listing(fs, options, root)| ==> finished
  {
    hide StackOk, WellFormed, Roomy, DirectoryListing.Valid, Request, Listing, EndsWithSeparator, Fit;
    var async := new AsyncDirectoryListing(fs, root, options);
    ghost var m := Start(root);
    StartIsPendingListing(fs, options, root);
    PendingIs(fs, options, m);
    ghost var all := Requests(fs, options, m, lengths);
    RequestsFrom(fs, options, m, lengths);
    records := [];
    for i := 0 to |lengths|
      invariant async.Valid() && async.listing.fs == fs && async.listing.options == options
      invariant fresh(async) && fresh(async.listing) && fresh(async.listing.pathBuffer) && fresh(async.listing.heap)
      invariant fresh(async.listing.pathBuffer.data) && fresh(async.listing.entries)
      invariant forall e :: e in async.listing.entries ==> fresh(e)
      invariant all == Answered(fs, options, async.listing.View(), lengths[i..], records)
    {
      RequestsOn(fs, options, async.listing.View(), lengths[i..], records);
      assert lengths[i..][1..] == lengths[i + 1..] && lengths[i..][0] == lengths[i];
      var answer := async.ListNextRequest(lengths[i]);
      records := records + Decoded(answer);
      forall k | 0 <= k < |async.listing.entries|
        ensures fresh(async.listing.entries[k])
      {
        assert async.listing.entries[k] in async.listing.entries;
      }
    }
    RequestsEnd(fs, options, async.listing.View(), records);
    PausingIsInvisible(fs, options, m, lengths);
    async.listing.TopIsLastOf();
    finished := async.listing.top == null;
    FinishedHasNothingLeft(fs, options, async.listing.View());
  }

  /** What requests still to come add to the records `rs` already handed out. */
  ghost function Answered(fs: FileSystem, o: Options, m: Machine, lengths: seq<nat>,
                          rs: seq<Record>): (r: (Machine, seq<Record>))
    requires WellFormed(fs) && StackOk(fs, m.stack, m.path) && forall i :: 0 <= i < |lengths| ==> ChunkOk(lengths[i])
  {
    var (m', more) := Requests(fs, o, m, lengths);
    (m', rs + more)
  }

  lemma RequestsFrom(fs: FileSystem, o: Options, m: Machine, lengths: seq<nat>)
    requires WellFormed(fs) && StackOk(fs, m.stack, m.path) && forall i :: 0 <= i < |lengths| ==> ChunkOk(lengths[i])
    ensures lengths[0..] == lengths && Answered(fs, o, m, lengths, []) == Requests(fs, o, m, lengths)
  {
    hide WellFormed, StackOk, Requests;
    var more := Requests(fs, o, m, lengths).1;
    assert [] + more == more;
  }

  lemma RequestsOn(fs: FileSystem, o: Options, m: Machine, lengths: seq<nat>, rs: seq<Record>)
    requires WellFormed(fs) && StackOk(fs, m.stack, m.path) && forall i :: 0 <= i < |lengths| ==> ChunkOk(lengths[i])
    requires lengths != []
    ensures ChunkOk(lengths[0]) && forall i :: 0 <= i < |lengths[1..]| ==> ChunkOk(lengths[1..][i])
    ensures
      var (m1, answer) := Request(fs, o, m, lengths[0]);
      Answered(fs, o, m, lengths, rs) == Answered(fs, o, m1, lengths[1..], rs + answer)
  {
    hide WellFormed, StackOk, Request;
    assert ChunkOk(lengths[0]);
    var (m1, answer) := Request(fs, o, m, lengths[0]);
    var more := Requests(fs, o, m1, lengths[1..]).1;
    assert rs + (answer + more) == rs + answer + more;
  }

  lemma RequestsEnd(fs: FileSystem, o: Options, m: Machine, rs: seq<Record>)
    requires WellFormed(fs) && StackOk(fs, m.stack, m.path)
    ensures Answered(fs, o, m, [], rs) == (m, rs)
  {
    hide WellFormed, StackOk;
    assert rs + [] == rs;
  }

  lemma FinishedHasNothingLeft(fs: FileSystem, o: Options, m: Machine)
    requires WellFormed(fs) && StackOk(fs, m.stack, m.path)
    ensures m.stack == [] ==> Pending(fs, o, m) == []
  {
  }

  /** What a run of the listing adds to the records `rs` already handed out. */
  ghost function Continued(fs: FileSystem, o: Options, m: Machine, length: nat, used: nat,
                           rs: seq<Record>): (r: (Machine, seq<Record>))
    requires WellFormed(fs) && m.stack != [] && StackOk(fs, m.stack, m.path) && used < length
  {
    var (m', more) := Fill(fs, o, m, length, used);
    (m', rs + more)
  }

  lemma NothingYet(fs: FileSystem, o: Options, m: Machine, length: nat)
    requires WellFormed(fs) && m.stack != [] && StackOk(fs, m.stack, m.path) && 0 < length
    ensures Continued(fs, o, m, length, 0, []) == Fill(fs, o, m, length, 0)
  {
    hide WellFormed, StackOk, Fill;
    var rs := Fill(fs, o, m, length, 0).1;
    assert [] + rs == rs;
  }

  lemma FillUnfold(fs: FileSystem, o: Options, m: Machine, length: nat, used: nat, rs: seq<Record>)
    requires WellFormed(fs) && m.stack != [] && StackOk(fs, m.stack, m.path) && used < length
    ensures StepReady(fs, m)
    ensures
      var (m', emitted) := ListNext(fs, o, m);
      var used' := used + 2 * |emitted|;
      && StackOk(fs, m'.stack, m'.path)
      && Continued(fs, o, m, length, used, rs)
         == if m'.stack == [] || used' >= length then (m', rs + emitted)
            else Continued(fs, o, m', length, used', rs + emitted)
  {
    hide WellFormed, StackOk, ListNext;
    StepCorrect(fs, o, m);
    var (m', emitted) := ListNext(fs, o, m);
    var used' := used + 2 * |emitted|;
    if m'.stack != [] && used' < length {
      var more := Fill(fs, o, m', length, used').1;
      assert rs + (emitted + more) == rs + emitted + more;
    }
  }
}
