/** WorkspaceWatcher of scripts/piper_ui.py: one offset per journal, armed at end of file the
    first time the journal is polled, and every object read passed on to the page. */
module Watcher {
  import opened Sequences
  import opened Tail

  // One turn of the loop over the journals: the file as its size was taken to arm the offset,
  // and as it was read a moment later.
  datatype Poll = Poll(path: string, armed: Option<string>, file: Option<string>)

  datatype Sent<T> = Sent(path: string, obj: T)

  datatype Watch<T> = Watch(offsets: map<string, nat>, sent: seq<Sent<T>>)

  function Size(file: Option<string>): nat {
    match file
    case Some(content) => |content|
    case None => 0
  }

  function Label<T>(path: string): T -> Sent<T> { (obj: T) => Sent(path, obj) }

  function Armed(offsets: map<string, nat>, p: Poll): nat {
    if p.path in offsets then offsets[p.path] else Size(p.armed)
  }

  function Polled<T>(parse: string -> Option<T>, w: Watch<T>, p: Poll): Watch<T> {
    var read := ReadOnce(parse, p.file, Armed(w.offsets, p));
    Watch(w.offsets[p.path := read.offset], w.sent + Map(Label(p.path), read.objects))
  }

  class WorkspaceWatcher<T> {
    const parse: string -> Option<T>
    var offsets: map<string, nat>
    var sent: seq<Sent<T>>

    function State(): Watch<T>
      reads this
    {
      Watch(offsets, sent)
    }

    constructor (parse: string -> Option<T>)
      ensures this.parse == parse && State() == Watch(map[], [])
    {
      this.parse := parse;
      offsets, sent := map[], [];
    }

    // Another slice has become the active one: its journals are armed afresh.
    method SwitchSlice()
      modifies this`offsets
      ensures State() == old(State()).(offsets := map[])
    {
      offsets := map[];
    }

    method ArmOffset(path: string, file: Option<string>)
      modifies this`offsets
      ensures offsets == if path in old(offsets) then old(offsets) else old(offsets)[path := Size(file)]
    {
      if path !in offsets {
        offsets := offsets[path := match file case Some(content) => |content| case None => 0];
      }
    }

    method PollJournal(p: Poll)
      modifies this
      ensures State() == Polled(parse, old(State()), p)
    {
      ArmOffset(p.path, p.armed);
      var objects, newOffset := ReadAppended(parse, p.file, offsets[p.path]);
      offsets := offsets[p.path := newOffset];
      ghost var tag, before := Label(p.path), sent;
      assert objects[..|objects|] == objects;
      for i := 0 to |objects|
        invariant offsets == old(offsets)[p.path := newOffset]
        invariant sent == before + Map(tag, objects[..i])
      {
        assert Map(tag, objects[..i + 1]) == Map(tag, objects[..i]) + [tag(objects[i])];
        sent := sent + [Sent(p.path, objects[i])];
      }
    }
  }

  // --- Journals do not disturb each other --------------------------------------------------

  function WatchAll<T>(parse: string -> Option<T>, polls: seq<Poll>): Watch<T> {
    if polls == [] then Watch(map[], [])
    else Polled(parse, WatchAll(parse, polls[..|polls| - 1]), polls[|polls| - 1])
  }

  /** Where a journal's offset was armed: its size the first time it was polled. */
  function ArmedAt(path: string, polls: seq<Poll>): Option<nat> {
    if polls == [] then None
    else match ArmedAt(path, polls[..|polls| - 1])
      case Some(n) => Some(n)
      case None => if polls[|polls| - 1].path == path then Some(Size(polls[|polls| - 1].armed)) else None
  }

  function FileAt(path: string): Poll -> seq<Option<string>> {
    (p: Poll) => if p.path == path then [p.file] else []
  }

  /** What one journal held each time it was read. */
  function FilesOf(path: string, polls: seq<Poll>): seq<Option<string>> { FlatMap(FileAt(path), polls) }

  function ObjectOn<T>(path: string): Sent<T> -> seq<T> {
    (x: Sent<T>) => if x.path == path then [x.obj] else []
  }

  function SentOn<T>(path: string, sent: seq<Sent<T>>): seq<T> { FlatMap(ObjectOn(path), sent) }

  lemma {:induction false} LabelledObjects<T>(path: string, tag: string, objects: seq<T>)
    ensures SentOn(path, Map(Label(tag), objects)) == if path == tag then objects else []
  {
    if objects == [] {
      assert Map(Label(tag), objects) == [];
    } else {
      var n := |objects| - 1;
      LabelledObjects(path, tag, objects[..n]);
      var sent := Map(Label(tag), objects);
      assert sent[..n] == Map(Label(tag), objects[..n]);
      Unsnoc(objects);
    }
  }

  lemma ReadAllSnoc<T>(parse: string -> Option<T>, start: nat, files: seq<Option<string>>, file: Option<string>)
    ensures var before := ReadAll(parse, start, files);
            var now := ReadOnce(parse, file, before.offset);
            ReadAll(parse, start, files + [file]) == Read(before.objects + now.objects, now.offset)
  {
    assert (files + [file])[..|files|] == files;
  }

  /** What has been passed on from one journal, and its offset, are those of tailing it alone
      from where it was armed. */
  ghost predicate TailedAlone<T>(parse: string -> Option<T>, path: string, w: Watch<T>, start: Option<nat>,
                                 files: seq<Option<string>>) {
    (path in w.offsets <==> start.Some?) &&
    match start
    case None => SentOn(path, w.sent) == [] && files == []
    case Some(n) =>
      w.offsets[path] == ReadAll(parse, n, files).offset && SentOn(path, w.sent) == ReadAll(parse, n, files).objects
  }

  lemma SentSnoc<T>(parse: string -> Option<T>, w: Watch<T>, p: Poll, path: string)
    ensures SentOn(path, Polled(parse, w, p).sent) ==
            if path == p.path then SentOn(path, w.sent) + ReadOnce(parse, p.file, Armed(w.offsets, p)).objects
            else SentOn(path, w.sent)
  {
    var objects := ReadOnce(parse, p.file, Armed(w.offsets, p)).objects;
    FlatMapAppend(ObjectOn(path), w.sent, Map(Label(p.path), objects));
    LabelledObjects(path, p.path, objects);
    assert SentOn(path, w.sent) + [] == SentOn(path, w.sent);
  }

  lemma PollTails<T>(parse: string -> Option<T>, w: Watch<T>, start: Option<nat>, files: seq<Option<string>>, p: Poll)
    requires TailedAlone(parse, p.path, w, start, files)
    ensures var start' := if start.Some? then start else Some(Size(p.armed));
            TailedAlone(parse, p.path, Polled(parse, w, p), start', files + [p.file])
  {
    hide ReadOnce, SentOn;
    SentSnoc(parse, w, p, p.path);
    ReadAllSnoc(parse, if start.Some? then start.value else Size(p.armed), files, p.file);
  }

  lemma OtherPollTails<T>(parse: string -> Option<T>, path: string, w: Watch<T>, start: Option<nat>,
                          files: seq<Option<string>>, p: Poll)
    requires TailedAlone(parse, path, w, start, files) && p.path != path
    ensures TailedAlone(parse, path, Polled(parse, w, p), start, files)
  {
    hide ReadOnce, SentOn;
    SentSnoc(parse, w, p, path);
  }

  /** However the polls of the journals interleave, each is tailed as if it were the only one. */
  lemma {:induction false} JournalsAreTailedAlone<T>(parse: string -> Option<T>, polls: seq<Poll>, path: string)
    ensures TailedAlone(parse, path, WatchAll(parse, polls), ArmedAt(path, polls), FilesOf(path, polls))
  {
    hide TailedAlone, Polled, Label;
    if polls == [] {
      NothingPolled(parse, path);
    } else {
      var before, p := polls[..|polls| - 1], polls[|polls| - 1];
      var w, start, files := WatchAll(parse, before), ArmedAt(path, before), FilesOf(path, before);
      JournalsAreTailedAlone(parse, before, path);
      if p.path == path {
        PollTails(parse, w, start, files, p);
      } else {
        OtherPollTails(parse, path, w, start, files, p);
        assert files + [] == files;
      }
    }
  }

  lemma NothingPolled<T>(parse: string -> Option<T>, path: string)
    ensures TailedAlone(parse, path, WatchAll(parse, []), ArmedAt(path, []), FilesOf(path, []))
  {
  }

  /** So a journal that only grows has every complete line written since its offset was armed
      passed on exactly once, in order, whatever the other journals do. */
  lemma EveryJournalIsPassedOn<T>(parse: string -> Option<T>, polls: seq<Poll>, path: string, armed: string)
    requires ArmedAt(path, polls) == Some(|armed|) && AppendOnly(armed, FilesOf(path, polls))
    ensures armed <= LastSeen(armed, FilesOf(path, polls))
    ensures SentOn(path, WatchAll(parse, polls).sent) ==
            Objects(parse, LastSeen(armed, FilesOf(path, polls))[|armed|..])
  {
    JournalsAreTailedAlone(parse, polls, path);
    TailRefinesWholeRead(parse, armed, FilesOf(path, polls));
  }

  // --- Another slice becomes the active one ----------------------------------------------------

  function WatchFrom<T>(parse: string -> Option<T>, w: Watch<T>, polls: seq<Poll>): Watch<T> {
    if polls == [] then w else Polled(parse, WatchFrom(parse, w, polls[..|polls| - 1]), polls[|polls| - 1])
  }

  /** What SwitchSlice leaves. */
  function Switched<T>(w: Watch<T>): Watch<T> { w.(offsets := map[]) }

  /** After a switch the watcher goes on as a new one would, and what it sent before stays sent. */
  lemma {:induction false} SwitchStartsAfresh<T>(parse: string -> Option<T>, w: Watch<T>, polls: seq<Poll>)
    ensures var since := WatchAll(parse, polls);
            WatchFrom(parse, Switched(w), polls) == Watch(since.offsets, w.sent + since.sent)
  {
    if polls == [] {
      assert w.sent + [] == w.sent;
    } else {
      hide ReadOnce;
      var before, p := polls[..|polls| - 1], polls[|polls| - 1];
      SwitchStartsAfresh(parse, w, before);
      var read := ReadOnce(parse, p.file, Armed(WatchAll(parse, before).offsets, p));
      Associative(w.sent, WatchAll(parse, before).sent, Map(Label(p.path), read.objects));
    }
  }

  /** So the journals of the slice it switched to, that slice's for the second time included, have
      every complete line written since they were armed again passed on once, in order. */
  lemma EveryJournalIsPassedOnAfterASwitch<T>(parse: string -> Option<T>, w: Watch<T>, polls: seq<Poll>,
                                              path: string, armed: string)
    requires ArmedAt(path, polls) == Some(|armed|) && AppendOnly(armed, FilesOf(path, polls))
    ensures armed <= LastSeen(armed, FilesOf(path, polls))
    ensures SentOn(path, WatchFrom(parse, Switched(w), polls).sent) ==
            SentOn(path, w.sent) + Objects(parse, LastSeen(armed, FilesOf(path, polls))[|armed|..])
  {
    hide WatchAll, WatchFrom, ArmedAt, Objects, LastSeen, AppendOnly;
    SwitchStartsAfresh(parse, w, polls);
    EveryJournalIsPassedOn(parse, polls, path, armed);
    FlatMapAppend(ObjectOn(path), w.sent, WatchAll(parse, polls).sent);
  }
}
