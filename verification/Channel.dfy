/** A channel that loses frames but keeps their order, and what a directory capture makes of it. */
module Channel {
  import opened Machine
  import opened Sequences
  import opened Wire
  import opened ReceiverModel
  import opened Delivery
  import opened Splitting
  import opened Dispatching

  /** What comes through when exactly the marked elements do. */
  function Surviving<T>(kept: seq<bool>, xs: seq<T>): (r: seq<T>)
    requires |kept| == |xs|
    ensures |r| <= |xs|
    ensures true in kept ==> r != []
  {
    if xs == [] then [] else (if kept[0] then [xs[0]] else []) + Surviving(kept[1..], xs[1..])
  }

  lemma {:induction false} SurvivingAppend<T>(k: seq<bool>, a: seq<T>, l: seq<bool>, b: seq<T>)
    requires |k| == |a| && |l| == |b|
    ensures Surviving(k + l, a + b) == Surviving(k, a) + Surviving(l, b)
  {
    if a == [] {
      assert k + l == l && a + b == b;
    } else {
      assert (k + l)[1..] == k[1..] + l && (a + b)[1..] == a[1..] + b;
      SurvivingAppend(k[1..], a[1..], l, b);
    }
  }

  /** A channel without loss. */
  lemma {:induction false} AllSurvive<T>(kept: seq<bool>, xs: seq<T>)
    requires |kept| == |xs| && false !in kept
    ensures Surviving(kept, xs) == xs
  {
    if xs != [] {
      assert kept[0] in kept;
      AllSurvive(kept[1..], xs[1..]);
    }
  }

  ghost predicate AllOfKind(frames: seq<Frame>, kind: ControlType) {
    forall i :: 0 <= i < |frames| ==> Classify(frames[i]) == kind
  }

  lemma {:induction false} SurvivorsKeepTheirKind(kept: seq<bool>, frames: seq<Frame>, kind: ControlType)
    requires |kept| == |frames| && AllOfKind(frames, kind)
    ensures AllOfKind(Surviving(kept, frames), kind)
  {
    if frames != [] {
      SurvivorsKeepTheirKind(kept[1..], frames[1..], kind);
    }
  }

  // ---------- Files on the air ----------

  /** The frames of one file as they arrive: preambles, data, end-of-transmission frames. */
  datatype FileFrames = FileFrames(preambles: seq<Frame>, data: seq<Frame>, eots: seq<Frame>)
  {
    function Frames(): seq<Frame> { preambles + data + eots }

    ghost predicate Valid() {
      AllOfKind(preambles, Preamble) && AllOfKind(data, NoControl) && AllOfKind(eots, Eot)
    }
  }

  ghost predicate AllValid(files: seq<FileFrames>) {
    forall i :: 0 <= i < |files| ==> files[i].Valid()
  }

  function OnAir(files: seq<FileFrames>): seq<Frame> {
    if files == [] then [] else files[0].Frames() + OnAir(files[1..])
  }

  /** No output gets as many data frames as the 32-bit packet counter has values. */
  predicate Countable(packets: nat, files: seq<FileFrames>)
    decreases files
  {
    && packets < TWO_TO_32
    && (files != [] ==>
          Countable(if packets > 0 && files[0].preambles != [] then |files[0].data| else packets + |files[0].data|,
                    files[1..]))
  }

  /**
   The data frames of every output: a file starts a new output exactly if one of its preambles
   arrives and data has arrived since the last cut.
   */
  function Groups(current: seq<Frame>, files: seq<FileFrames>): seq<seq<Frame>>
    decreases files
  {
    if files == [] then [current]
    else if current != [] && files[0].preambles != [] then [current] + Groups(files[0].data, files[1..])
    else Groups(current + files[0].data, files[1..])
  }

  lemma {:induction false} DataFramesOfKind(frames: seq<Frame>, kind: ControlType)
    requires AllOfKind(frames, kind)
    ensures DataFrames(frames) == if kind == NoControl then frames else []
  {
    if frames != [] {
      DataFramesOfKind(frames[1..], kind);
    }
  }

  lemma FileData(f: FileFrames)
    requires f.Valid()
    ensures DataFrames(f.Frames()) == f.data
  {
    DataFramesOfKind(f.preambles, Preamble);
    DataFramesOfKind(f.data, NoControl);
    DataFramesOfKind(f.eots, Eot);
    DataFramesAppend(f.preambles, f.data);
    DataFramesAppend(f.preambles + f.data, f.eots);
  }

  // ---------- Segments of whole files ----------

  /** Frames of one kind that do not end the capture join the segment. */
  lemma {:induction false} JoinSegment(current: seq<Frame>, packets: uint32, frames: seq<Frame>, kind: ControlType,
                                       later: seq<Frame>, after: uint32)
    requires AllOfKind(frames, kind) && (kind == Preamble ==> packets == 0 || frames == [])
    requires after == packets + if kind == NoControl then |frames| else 0
    ensures Segments(current, packets, frames + later) == Segments(current + frames, after, later)
    decreases frames
  {
    if frames == [] {
      assert frames + later == later && current + frames == current;
    } else {
      var f, rest := frames[0], frames[1..];
      assert frames == [f] + rest;
      Associative([f], rest, later);
      Associative(current, [f], rest);
      SegmentsCons(current, packets, f, rest + later);
      JoinSegment(current + [f], Counted(packets, f), rest, kind, later, after);
    }
  }

  lemma JoinFile(current: seq<Frame>, packets: uint32, f: FileFrames, later: seq<Frame>)
    requires f.Valid() && (packets == 0 || f.preambles == [])
    requires packets + |f.data| < TWO_TO_32
    ensures Segments(current, packets, f.Frames() + later)
         == Segments(current + f.Frames(), packets + |f.data|, later)
  {
    var p, d, e := f.preambles, f.data, f.eots;
    JoinSegment(current, packets, p, Preamble, d + (e + later), packets);
    JoinSegment(current + p, packets, d, NoControl, e + later, packets + |d|);
    JoinSegment(current + p + d, packets + |d|, e, Eot, later, packets + |d|);
    Associative(p, d, e);
    Associative(p, d, e + later);
    Associative(p + d, e, later);
    Associative(current, p, d);
    Associative(current, p + d, e);
  }

  /** The file without its first preamble. */
  function Started(f: FileFrames): FileFrames
    requires f.preambles != []
  {
    f.(preambles := f.preambles[1..])
  }

  lemma StartedFrames(f: FileFrames, later: seq<Frame>)
    requires f.preambles != []
    ensures f.Frames() + later == [f.preambles[0]] + (Started(f).Frames() + later)
  {
  }

  lemma CutBeforeFile(current: seq<Frame>, packets: uint32, f: FileFrames, later: seq<Frame>)
    requires f.Valid() && packets > 0 && f.preambles != [] && |f.data| < TWO_TO_32
    ensures Segments(current, packets, f.Frames() + later)
         == [current + [f.preambles[0]]] + Segments(Started(f).Frames(), |f.data|, later)
  {
    var p, rest := f.preambles[0], Started(f);
    StartedFrames(f, later);
    assert ([p] + (rest.Frames() + later))[1..] == rest.Frames() + later;
    JoinFile([], 0, rest, later);
    assert [] + rest.Frames() == rest.Frames();
  }

  /** Cut into segments after `current`, the frames `air` hold the data that the groups say. */
  ghost predicate Grouped(current: seq<Frame>, air: seq<Frame>, files: seq<FileFrames>)
    requires |DataFrames(current)| < TWO_TO_32
  {
    DataOf(Segments(current, |DataFrames(current)|, air)) == Groups(DataFrames(current), files)
  }

  lemma CutStep(current: seq<Frame>, f: FileFrames, air: seq<Frame>, later: seq<FileFrames>)
    requires f.Valid() && f.preambles != [] && |f.data| < TWO_TO_32
    requires 0 < |DataFrames(current)| < TWO_TO_32
    requires DataFrames(Started(f).Frames()) == f.data && Grouped(Started(f).Frames(), air, later)
    ensures Grouped(current, f.Frames() + air, [f] + later)
  {
    var p := f.preambles[0];
    assert ([f] + later)[1..] == later;
    CutBeforeFile(current, |DataFrames(current)|, f, air);
    DataFramesAppend(current, [p]);
    assert DataFrames([p]) == [];
    assert DataFrames(current) + [] == DataFrames(current);
  }

  lemma JoinStep(current: seq<Frame>, frames: seq<Frame>, n: nat, air: seq<Frame>, groups: seq<seq<Frame>>)
    requires |DataFrames(current)| + n < TWO_TO_32 && |DataFrames(current + frames)| == |DataFrames(current)| + n
    requires Segments(current, |DataFrames(current)|, frames + air)
          == Segments(current + frames, |DataFrames(current)| + n, air)
    requires DataOf(Segments(current + frames, |DataFrames(current + frames)|, air)) == groups
    ensures DataOf(Segments(current, |DataFrames(current)|, frames + air)) == groups
  {
  }

  lemma {:induction false} SegmentsGroupFiles(current: seq<Frame>, files: seq<FileFrames>)
    requires AllValid(files) && Countable(|DataFrames(current)|, files)
    ensures Grouped(current, OnAir(files), files)
    decreases files
  {
    if files != [] {
      var f, later := files[0], files[1..];
      assert f.Valid() && files == [f] + later;
      if DataFrames(current) != [] && f.preambles != [] {
        FileData(Started(f));
        SegmentsGroupFiles(Started(f).Frames(), later);
        CutStep(current, f, OnAir(later), later);
      } else {
        FileData(f);
        DataFramesAppend(current, f.Frames());
        SegmentsGroupFiles(current + f.Frames(), later);
        JoinFile(current, |DataFrames(current)|, f, OnAir(later));
        JoinStep(current, f.Frames(), |f.data|, OnAir(later), Groups(DataFrames(current) + f.data, later));
      }
    }
  }

  /** Every file but the first shows a preamble, and every file but the last shows data. */
  ghost predicate Separated(files: seq<FileFrames>) {
    && (forall i :: 0 < i < |files| ==> files[i].preambles != [])
    && (forall i :: 0 <= i < |files| - 1 ==> files[i].data != [])
  }

  lemma SeparatedStep(files: seq<FileFrames>)
    requires files != []
    ensures Separated(files) <==>
            |files| == 1 || (files[0].data != [] && files[1].preambles != [] && Separated(files[1..]))
  {
    var later := files[1..];
    assert forall i :: 0 <= i < |later| ==> later[i] == files[i + 1];
    if Separated(files) {
      forall i | 0 < i < |later| ensures later[i].preambles != [] {
        assert files[i + 1].preambles != [];
      }
      forall i | 0 <= i < |later| - 1 ensures later[i].data != [] {
        assert files[i + 1].data != [];
      }
    }
  }

  function DataParts(files: seq<FileFrames>): (r: seq<seq<Frame>>)
    ensures |r| == |files| && forall k :: 0 <= k < |r| ==> r[k] == files[k].data
  {
    if files == [] then [] else [files[0].data] + DataParts(files[1..])
  }

  /**
   There are as many outputs as files exactly if every file but the first shows a preamble and
   every file but the last shows data; then every file has its own output.
   */
  lemma {:induction false} GroupsAreFilesExactly(current: seq<Frame>, files: seq<FileFrames>)
    ensures |Groups(current, files)| <= |files| + 1
    ensures |Groups(current, files)| == |files| + 1
       <==> files == [] || (current != [] && files[0].preambles != [] && Separated(files))
    ensures |Groups(current, files)| == |files| + 1 ==> Groups(current, files) == [current] + DataParts(files)
    decreases files
  {
    if files != [] {
      var f, later := files[0], files[1..];
      SeparatedStep(files);
      GroupsAreFilesExactly(f.data, later);
      GroupsAreFilesExactly(current + f.data, later);
    }
  }

  lemma OneGroupPerFileExactly(files: seq<FileFrames>)
    requires files != []
    ensures |Groups([], files)| == |files| <==> Separated(files)
    ensures Separated(files) ==> Groups([], files) == DataParts(files)
  {
    SeparatedStep(files);
    GroupsAreFilesExactly(files[0].data, files[1..]);
    assert [] + files[0].data == files[0].data;
  }

  lemma {:induction false} SeparatedFilesAreCountable(packets: nat, files: seq<FileFrames>)
    requires packets <= 0x8000_0000 && Separated(files)
    requires forall i :: 0 <= i < |files| ==> |files[i].data| <= 0x8000_0000
    requires packets > 0 && files != [] ==> files[0].preambles != []
    ensures Countable(packets, files)
    decreases files
  {
    if files != [] {
      SeparatedStep(files);
      assert forall i :: 0 <= i < |files| - 1 ==> files[1..][i] == files[i + 1];
      SeparatedFilesAreCountable(|files[0].data|, files[1..]);
    }
  }

  /** The directory capture of such frames: its outputs and the groups of data correspond. */
  lemma DirectoryFollowsGroups(cfg: RxConfig, files: seq<FileFrames>, events: seq<RxEvent>)
    returns (segments: seq<seq<Frame>>)
    requires AllValid(files) && Countable(0, files)
    requires Undisturbed(events) && CleanCuts(0, events) && FramesOf(events) == OnAir(files)
    ensures Directory(cfg, events) == Outputs(cfg, segments) && DataOf(segments) == Groups([], files)
  {
    segments := DispatchSegments([], 0, events);
    DirectorySplitsAtDispatches(cfg, events);
    DispatchesKeepDataExactly(events);
    SegmentsGroupFiles([], files);
  }

  /**
   If dispatches cut cleanly, a directory capture makes as many outputs as files were sent exactly
   if every file but the first shows a preamble and every file but the last shows data.
   */
  lemma OneOutputPerFileExactly(cfg: RxConfig, files: seq<FileFrames>, events: seq<RxEvent>)
    requires files != [] && AllValid(files) && Countable(0, files)
    requires Undisturbed(events) && CleanCuts(0, events) && FramesOf(events) == OnAir(files)
    ensures |Directory(cfg, events)| == |files| <==> Separated(files)
  {
    var segments := DirectoryFollowsGroups(cfg, files, events);
    OneGroupPerFileExactly(files);
  }

  // ---------- Files in one dispatch ----------

  /** Frames of one kind do not end a capture, except preambles behind data. */
  lemma {:induction false} QuietFrames(packets: uint32, frames: seq<Frame>, kind: ControlType)
    requires AllOfKind(frames, kind) && (kind == Preamble ==> packets == 0)
    ensures !EndsIn(packets, frames) && (kind != NoControl ==> CountedAll(packets, frames) == packets)
    decreases frames
  {
    if frames != [] {
      QuietFrames(Counted(packets, frames[0]), frames[1..], kind);
    }
  }

  lemma FileIsOneCapture(f: FileFrames)
    requires f.Valid()
    ensures !EndsIn(0, f.Frames())
  {
    var n := CountedAll(0, f.preambles + f.data);
    QuietFrames(0, f.preambles, Preamble);
    QuietFrames(0, f.data, NoControl);
    QuietFrames(n, f.eots, Eot);
    EndsInAppend(0, f.preambles, f.data);
    EndsInAppend(0, f.preambles + f.data, f.eots);
  }

  /** The first preamble of a file behind data ends the capture, and the rest of the file stands behind it. */
  lemma NextFileEnds(f: FileFrames, g: FileFrames)
    requires f.Valid() && g.Valid() && f.data != [] && g.preambles != [] && |f.data| < TWO_TO_32
    ensures EndsIn(0, f.Frames() + g.Frames())
    ensures DataFrames(AfterEnd(0, f.Frames() + g.Frames())) == g.data
  {
    var a, b := f.Frames(), g.Frames();
    FileData(f);
    CountedAllIsDataCount(0, a);
    FileIsOneCapture(f);
    StartedFrames(g, []);
    assert b + [] == b && Started(g).Frames() + [] == Started(g).Frames();
    assert b[0] == g.preambles[0] && b[1..] == Started(g).Frames();
    FileData(Started(g));
    EndsInAppend(0, a, b);
    AfterEndAppend(0, a, b);
  }

  /**
   Two files in one dispatch run together: their data goes to the first output, and the second one
   is empty.
   */
  lemma FilesRunTogether(cfg: RxConfig, f: FileFrames, g: FileFrames, events: seq<RxEvent>)
    requires f.Valid() && g.Valid() && f.data != [] && g.preambles != [] && g.data != [] && |f.data| < TWO_TO_32
    requires events == [Dispatch(f.Frames() + g.Frames(), false)]
    ensures !CleanCuts(0, events)
    ensures Directory(cfg, events) == [RunOutput(cfg, f.data + g.data), []]
  {
    var air := f.Frames() + g.Frames();
    NextFileEnds(f, g);
    OneDispatch(air, events);
    DirectorySplitsAtDispatches(cfg, events);
    assert Outputs(cfg, [air, []]) == [RunOutput(cfg, air), RunOutput(cfg, [])];
    FileData(f);
    FileData(g);
    DataFramesAppend(f.Frames(), g.Frames());
    OnlyDataIsWritten(cfg, air);
    NothingIsWritten(cfg);
  }

  lemma OneDispatch(air: seq<Frame>, events: seq<RxEvent>)
    requires EndsIn(0, air) && events == [Dispatch(air, false)]
    ensures DispatchSegments([], 0, events) == [air, []] && Undisturbed(events)
    ensures CleanCuts(0, events) ==> DataFrames(AfterEnd(0, air)) == []
  {
    assert events[1..] == [] && [] + air == air;
  }

  /** Files that can be told apart frame by frame are told apart exactly if dispatches cut cleanly. */
  lemma FilesSeparateExactly(files: seq<FileFrames>, events: seq<RxEvent>)
    requires files != [] && AllValid(files) && Countable(0, files) && Separated(files)
    requires FramesOf(events) == OnAir(files)
    ensures DataOf(DispatchSegments([], 0, events)) == DataParts(files) <==> CleanCuts(0, events)
  {
    DispatchesKeepDataExactly(events);
    SegmentsGroupFiles([], files);
    OneGroupPerFileExactly(files);
  }

  lemma NothingIsWritten(cfg: RxConfig)
    ensures RunOutput(cfg, []) == []
  {
    CaptureIsWindowedSort(cfg, []);
  }
}
