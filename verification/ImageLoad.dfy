/** Reading dockerd's messages while images are loaded (pkg/compose/image_loader.go). */
module ImageLoad {
  import opened Base

  /** A message of the response: with progress, without, or an error. */
  datatype Message = Plain | Progress(id: string, current: int, total: int) | DaemonError

  datatype Kind = ImageWaiting | LayerLoading | LayerSyncing | LayerLoaded | ImageLoaded | ImageExist

  /** What is reported; one such value is updated from message to message. */
  datatype Report = Report(kind: Kind, image: string, layer: string, current: int, total: int)

  datatype Outcome = Finished | DecodeFailed | DaemonFailed | Panicked

  /** An image with the number of messages by which dockerd tells that it is loaded. */
  datatype Image = Image(uri: string, refCounter: int)

  datatype Machine = Machine(p: Report, index: nat, layerId: string, counters: seq<int>, reported: seq<Report>)

  function ImageAt(images: seq<Image>, index: nat): string {
    if index < |images| then images[index].uri else "unknown"
  }

  /** The short name of a layer; layers not in the map are unknown. */
  function Label(layers: map<string, string>, id: string): (name: string)
    ensures id in layers ==> name <= layers[id] && |name| <= 7 && (|name| == 7 || name == layers[id])
    ensures id !in layers ==> name == "unknown"
  {
    if id in layers then (if |layers[id]| >= 7 then layers[id][..7] else layers[id]) else "unknown"
  }

  function Say(m: Machine, p: Report): Machine {
    m.(p := p, reported := m.reported + [p])
  }

  /** One more message that the current image is there; the last one ends the image. */
  function CountDown(images: seq<Image>, m: Machine, kind: Kind): Option<Machine> {
    if m.index >= |m.counters| then None
    else
      var counted := m.(counters := m.counters[m.index := m.counters[m.index] - 1]);
      if counted.counters[m.index] != 0 then Some(counted)
      else
        var told := Say(counted, m.p.(kind := kind));
        Some(told.(index := m.index + 1, layerId := "",
          p := told.p.(kind := ImageWaiting, image := ImageAt(images, m.index + 1))))
  }

  /** The reaction to a message that is no error; None is a panic. */
  function Handle(images: seq<Image>, layers: map<string, string>, m: Machine, msg: Message): Option<Machine> {
    match m.p.kind
    case ImageWaiting =>
      if !msg.Progress? then CountDown(images, m, ImageExist)
      else
        Some(Say(m.(layerId := msg.id),
          Report(LayerLoading, ImageAt(images, m.index), Label(layers, msg.id), msg.current, msg.total)))
    case LayerLoading =>
      if !msg.Progress? then None
      else
        var told := Say(m, m.p.(current := msg.current, total := msg.total));
        Some(if msg.current == msg.total then Say(told, told.p.(kind := LayerSyncing)) else told)
    case LayerSyncing =>
      if !msg.Progress? then CountDown(images, m, ImageLoaded)
      else if m.layerId != msg.id then
        var told := Say(m, m.p.(kind := LayerLoaded));
        Some(Say(told.(layerId := msg.id), m.p.(kind := LayerLoading, layer := Label(layers, msg.id),
          current := msg.current, total := msg.total)))
      else Some(m)
    case _ => Some(m)
  }

  function RunAll(images: seq<Image>, layers: map<string, string>, m: Machine, msgs: seq<Message>): (Machine, Outcome)
    decreases |msgs|
  {
    if msgs == [] then (m, Finished)
    else if msgs[0] == DaemonError then (m, DaemonFailed)
    else
      match Handle(images, layers, m, msgs[0])
      case None => (m, Panicked)
      case Some(next) => RunAll(images, layers, next, msgs[1..])
  }

  function Initial(images: seq<Image>): Machine {
    Machine(Report(ImageWaiting, ImageAt(images, 0), "", 0, 0), 0, "",
      seq(|images|, i requires 0 <= i < |images| => images[i].refCounter), [])
  }

  /** The reading loop. The stream of messages ends cleanly or with a decoding error. */
  method ReportProgress(images: seq<Image>, layers: map<string, string>, msgs: seq<Message>, cleanEnd: bool)
    returns (reported: seq<Report>, outcome: Outcome)
    ensures images == [] ==> outcome == Panicked && reported == []
    ensures images != [] ==>
      var (m, o) := RunAll(images, layers, Initial(images), msgs);
      reported == m.reported && outcome == if o == Finished && !cleanEnd then DecodeFailed else o
  {
    reported := [];
    if |images| == 0 {
      return [], Panicked;
    }
    var index, layerId := 0, "";
    var counters := seq(|images|, i requires 0 <= i < |images| => images[i].refCounter);
    var p := Report(ImageWaiting, images[0].uri, "", 0, 0);
    var next := 0;
    while next < |msgs|
      invariant next <= |msgs|
      invariant p.kind in {ImageWaiting, LayerLoading, LayerSyncing}
      invariant RunAll(images, layers, Machine(p, index, layerId, counters, reported), msgs[next..]) ==
        RunAll(images, layers, Initial(images), msgs)
    {
      var msg := msgs[next];
      assert msgs[next..][0] == msg && msgs[next..][1..] == msgs[next + 1..];
      ghost var m := Machine(p, index, layerId, counters, reported);
      if msg == DaemonError {
        return reported, DaemonFailed;
      }
      if !msg.Progress? {
        if p.kind == LayerLoading || index >= |counters| {
          return reported, Panicked;
        }
        counters := counters[index := counters[index] - 1];
        if counters[index] == 0 {
          p := p.(kind := if p.kind == ImageWaiting then ImageExist else ImageLoaded);
          reported := reported + [p];
          index := index + 1;
          layerId := "";
          p := p.(kind := ImageWaiting, image := ImageAt(images, index));
        }
      } else if p.kind == ImageWaiting {
        layerId := msg.id;
        p := Report(LayerLoading, ImageAt(images, index), Label(layers, layerId), msg.current, msg.total);
        reported := reported + [p];
      } else if p.kind == LayerLoading {
        p := p.(current := msg.current, total := msg.total);
        reported := reported + [p];
        if msg.current == msg.total {
          p := p.(kind := LayerSyncing);
          reported := reported + [p];
        }
      } else if layerId != msg.id {
        p := p.(kind := LayerLoaded);
        reported := reported + [p];
        layerId := msg.id;
        p := p.(kind := LayerLoading, layer := Label(layers, layerId), current := msg.current, total := msg.total);
        reported := reported + [p];
      }
      assert Handle(images, layers, m, msg) == Some(Machine(p, index, layerId, counters, reported));
      next := next + 1;
    }
    outcome := if cleanEnd then Finished else DecodeFailed;
  }

  // ---------- Well-formed streams ----------

  /** A layer: a first message, more below the total, one that reaches it, and repetitions after that. */
  datatype Layer = Layer(id: string, first: (int, int), more: seq<(int, int)>, total: int, again: seq<(int, int)>)

  predicate LayerOk(l: Layer) {
    forall i :: 0 <= i < |l.more| ==> l.more[i].0 != l.more[i].1
  }

  /** The layers of an image; none for an image that was there already. Adjacent layers differ. */
  predicate LayersOk(ls: seq<Layer>) {
    (forall i :: 0 <= i < |ls| ==> LayerOk(ls[i])) && (forall i :: 0 <= i < |ls| - 1 ==> ls[i].id != ls[i + 1].id)
  }

  function Updates(id: string, amounts: seq<(int, int)>): seq<Message> {
    if amounts == [] then [] else [Progress(id, amounts[0].0, amounts[0].1)] + Updates(id, amounts[1..])
  }

  function LayerMessages(l: Layer): seq<Message> {
    [Progress(l.id, l.first.0, l.first.1)] +
      (Updates(l.id, l.more) + ([Progress(l.id, l.total, l.total)] + Updates(l.id, l.again)))
  }

  function LayersMessages(ls: seq<Layer>): seq<Message> {
    if ls == [] then [] else LayerMessages(ls[0]) + LayersMessages(ls[1..])
  }

  function Plains(n: nat): seq<Message> {
    if n == 0 then [] else [Plain] + Plains(n - 1)
  }

  function Stream(images: seq<Image>, logs: seq<seq<Layer>>): seq<Message>
    requires |images| == |logs| && forall i :: 0 <= i < |images| ==> images[i].refCounter > 0
  {
    if images == [] then []
    else (LayersMessages(logs[0]) + Plains(images[0].refCounter)) + Stream(images[1..], logs[1..])
  }

  /** The reports that end the writing of a layer, a layer, or an image, in order. */
  function Ends(reported: seq<Report>): seq<(Kind, string)> {
    if reported == [] then []
    else
      var last := reported[|reported| - 1];
      Ends(reported[..|reported| - 1]) + (if last.kind in ENDS then [(last.kind, last.image)] else [])
  }

  const ENDS := {LayerSyncing, LayerLoaded, ImageLoaded, ImageExist}

  /** What is to be told of so many layers of an image: each is written, and ended by the next one. */
  function LayersStory(image: string, count: nat, follows: bool): seq<(Kind, string)> {
    if count == 0 then []
    else LayerEnded(image, follows) + [(LayerSyncing, image)] + LayersStory(image, count - 1, true)
  }

  /** What is to be told of an image. */
  function Story(image: string, count: nat): seq<(Kind, string)> {
    LayersStory(image, count, false) + [(if count == 0 then ImageExist else ImageLoaded, image)]
  }

  function Expected(images: seq<Image>, logs: seq<seq<Layer>>): seq<(Kind, string)>
    requires |images| == |logs|
  {
    if images == [] then []
    else Story(images[0].uri, |logs[0]|) + Expected(images[1..], logs[1..])
  }

  /** Only the reports that end an image. */
  function ImageEnds(ends: seq<(Kind, string)>): seq<(Kind, string)> {
    if ends == [] then []
    else (if ends[0].0 in {ImageLoaded, ImageExist} then [ends[0]] else []) + ImageEnds(ends[1..])
  }

  lemma {:induction false} RunConcat(images: seq<Image>, layers: map<string, string>, m: Machine, a: seq<Message>,
                                     b: seq<Message>)
    requires RunAll(images, layers, m, a).1 == Finished
    ensures RunAll(images, layers, m, a + b) == RunAll(images, layers, RunAll(images, layers, m, a).0, b)
    decreases |a|
  {
    if a == [] {
      assert a + b == b;
    } else {
      assert (a + b)[1..] == a[1..] + b;
      RunConcat(images, layers, Handle(images, layers, m, a[0]).value, a[1..], b);
    }
  }

  /** One message more than a run that has not ended. */
  lemma RunOneMore(images: seq<Image>, layers: map<string, string>, start: Machine, msgs: seq<Message>, k: nat)
    requires k < |msgs| && RunAll(images, layers, start, msgs[..k]).1 == Finished
    ensures var m := RunAll(images, layers, start, msgs[..k]).0;
      RunAll(images, layers, start, msgs[..k + 1]) ==
        if msgs[k] == DaemonError then (m, DaemonFailed)
        else if Handle(images, layers, m, msgs[k]).None? then (m, Panicked)
        else (Handle(images, layers, m, msgs[k]).value, Finished)
  {
    assert msgs[..k + 1] == msgs[..k] + [msgs[k]];
    RunConcat(images, layers, start, msgs[..k], [msgs[k]]);
  }

  lemma EndsOfSay(m: Machine, p: Report)
    ensures Ends(Say(m, p).reported) == Ends(m.reported) + (if p.kind in ENDS then [(p.kind, p.image)] else [])
  {
    assert (m.reported + [p])[..|m.reported|] == m.reported;
  }

  /** Still at the same image, with the given ends reported meanwhile. */
  predicate SameImage(m: Machine, m': Machine, told: seq<(Kind, string)>) {
    m'.index == m.index && m'.counters == m.counters && m'.p.image == m.p.image
      && Ends(m'.reported) == Ends(m.reported) + told
  }

  lemma {:induction false} LoadingUpdates(images: seq<Image>, layers: map<string, string>, m: Machine, id: string,
                                          amounts: seq<(int, int)>)
    requires m.p.kind == LayerLoading && forall i :: 0 <= i < |amounts| ==> amounts[i].0 != amounts[i].1
    ensures var (m', o) := RunAll(images, layers, m, Updates(id, amounts));
      o == Finished && m'.p.kind == LayerLoading && m'.layerId == m.layerId && SameImage(m, m', [])
    decreases |amounts|
  {
    if amounts != [] {
      var msg := Progress(id, amounts[0].0, amounts[0].1);
      var next := Handle(images, layers, m, msg).value;
      EndsOfSay(m, next.p);
      assert Updates(id, amounts)[1..] == Updates(id, amounts[1..]);
      LoadingUpdates(images, layers, next, id, amounts[1..]);
    }
  }

  lemma {:induction false} SyncingUpdates(images: seq<Image>, layers: map<string, string>, m: Machine,
                                          amounts: seq<(int, int)>)
    requires m.p.kind == LayerSyncing
    ensures RunAll(images, layers, m, Updates(m.layerId, amounts)) == (m, Finished)
  {
    if amounts != [] {
      assert Updates(m.layerId, amounts)[1..] == Updates(m.layerId, amounts[1..]);
      SyncingUpdates(images, layers, m, amounts[1..]);
    }
  }

  /** A layer, from its second message on. */
  lemma RestOfLayer(images: seq<Image>, layers: map<string, string>, m: Machine, l: Layer)
    requires m.p.kind == LayerLoading && m.layerId == l.id && LayerOk(l)
    ensures var (m', o) := RunAll(images, layers, m, LayerMessages(l)[1..]);
      o == Finished && m'.p.kind == LayerSyncing && m'.layerId == l.id && SameImage(m, m', [(LayerSyncing, m.p.image)])
  {
    var more, done, again := Updates(l.id, l.more), [Progress(l.id, l.total, l.total)], Updates(l.id, l.again);
    assert LayerMessages(l)[1..] == more + (done + again);
    LoadingUpdates(images, layers, m, l.id, l.more);
    var loading := RunAll(images, layers, m, more).0;
    RunConcat(images, layers, m, more, done + again);
    var told := Say(loading, loading.p.(current := l.total, total := l.total));
    var synced := Say(told, told.p.(kind := LayerSyncing));
    EndsOfSay(loading, told.p);
    EndsOfSay(told, synced.p);
    assert RunAll(images, layers, loading, done) == (synced, Finished) by {
      assert done[1..] == [];
    }
    RunConcat(images, layers, loading, done, again);
    SyncingUpdates(images, layers, synced, l.again);
  }

  lemma SameImageTwice(m: Machine, n: Machine, k: Machine, a: seq<(Kind, string)>, b: seq<(Kind, string)>)
    requires SameImage(m, n, a) && SameImage(n, k, b)
    ensures SameImage(m, k, a + b)
  {
    assert Ends(m.reported) + a + b == Ends(m.reported) + (a + b);
  }

  function LayerEnded(image: string, follows: bool): seq<(Kind, string)> {
    if follows then [(LayerLoaded, image)] else []
  }

  /** The first message of a layer, met while waiting for an image or after another layer. */
  lemma FirstOfLayer(images: seq<Image>, layers: map<string, string>, m: Machine, msg: Message)
    requires msg.Progress? && m.p.image == ImageAt(images, m.index)
    requires m.p.kind == ImageWaiting || (m.p.kind == LayerSyncing && m.layerId != msg.id)
    ensures Handle(images, layers, m, msg).Some?
    ensures var next := Handle(images, layers, m, msg).value;
      next.p.kind == LayerLoading && next.layerId == msg.id
        && SameImage(m, next, LayerEnded(m.p.image, m.p.kind == LayerSyncing))
  {
    var next := Handle(images, layers, m, msg).value;
    if m.p.kind == ImageWaiting {
      EndsOfSay(m.(layerId := msg.id), next.p);
    } else {
      var told := Say(m, m.p.(kind := LayerLoaded));
      EndsOfSay(m, told.p);
      EndsOfSay(told.(layerId := msg.id), next.p);
    }
  }

  lemma OneLayer(images: seq<Image>, layers: map<string, string>, m: Machine, l: Layer)
    requires LayerOk(l) && m.p.image == ImageAt(images, m.index)
    requires m.p.kind == ImageWaiting || (m.p.kind == LayerSyncing && m.layerId != l.id)
    ensures var (m', o) := RunAll(images, layers, m, LayerMessages(l));
      && o == Finished && m'.p.kind == LayerSyncing && m'.layerId == l.id
      && SameImage(m, m', LayerEnded(m.p.image, m.p.kind == LayerSyncing) + [(LayerSyncing, m.p.image)])
  {
    var msg := LayerMessages(l)[0];
    FirstOfLayer(images, layers, m, msg);
    var next := Handle(images, layers, m, msg).value;
    RestOfLayer(images, layers, next, l);
    SameImageTwice(m, next, RunAll(images, layers, next, LayerMessages(l)[1..]).0,
                   LayerEnded(m.p.image, m.p.kind == LayerSyncing), [(LayerSyncing, m.p.image)]);
  }

  lemma {:induction false} AllLayers(images: seq<Image>, layers: map<string, string>, m: Machine, ls: seq<Layer>)
    requires LayersOk(ls) && m.p.image == ImageAt(images, m.index)
    requires m.p.kind == ImageWaiting || (m.p.kind == LayerSyncing && (ls == [] || m.layerId != ls[0].id))
    ensures RunAll(images, layers, m, LayersMessages(ls)).1 == Finished
    ensures SameImage(m, RunAll(images, layers, m, LayersMessages(ls)).0,
      LayersStory(m.p.image, |ls|, m.p.kind == LayerSyncing))
    ensures RunAll(images, layers, m, LayersMessages(ls)).0.p.kind == if ls == [] then m.p.kind else LayerSyncing
    decreases |ls|
  {
    if ls != [] {
      OneLayer(images, layers, m, ls[0]);
      var next := RunAll(images, layers, m, LayerMessages(ls[0])).0;
      RunConcat(images, layers, m, LayerMessages(ls[0]), LayersMessages(ls[1..]));
      AllLayers(images, layers, next, ls[1..]);
      SameImageTwice(m, next, RunAll(images, layers, next, LayersMessages(ls[1..])).0,
                     LayerEnded(m.p.image, m.p.kind == LayerSyncing) + [(LayerSyncing, m.p.image)],
                     LayersStory(m.p.image, |ls| - 1, true));
    }
  }

  /** The closing messages of an image end it with exactly one report. */
  lemma {:induction false} Closing(images: seq<Image>, layers: map<string, string>, m: Machine, n: nat)
    requires m.p.kind in {ImageWaiting, LayerSyncing} && m.index < |m.counters| && m.counters[m.index] == n > 0
    ensures var (m', o) := RunAll(images, layers, m, Plains(n));
      && o == Finished && m'.p.kind == ImageWaiting && m'.index == m.index + 1
      && m'.p.image == ImageAt(images, m.index + 1)
      && |m'.counters| == |m.counters| && (forall i :: m.index < i < |m.counters| ==> m'.counters[i] == m.counters[i])
      && Ends(m'.reported) == Ends(m.reported) +
        [(if m.p.kind == ImageWaiting then ImageExist else ImageLoaded, m.p.image)]
    decreases n
  {
    var kind := if m.p.kind == ImageWaiting then ImageExist else ImageLoaded;
    var counted := m.(counters := m.counters[m.index := n - 1]);
    assert Plains(n)[1..] == Plains(n - 1);
    if n == 1 {
      EndsOfSay(counted, m.p.(kind := kind));
    } else {
      assert Handle(images, layers, m, Plain) == Some(counted);
      Closing(images, layers, counted, n - 1);
    }
  }

  /** The machine is about to begin the image at its index, with the counters of that and later images
      untouched. */
  predicate AtImage(images: seq<Image>, m: Machine) {
    && |m.counters| == |images| && m.index <= |images|
    && m.p.kind == ImageWaiting && m.p.image == ImageAt(images, m.index)
    && forall i :: m.index <= i < |images| ==> m.counters[i] == images[i].refCounter
  }

  lemma OneImage(images: seq<Image>, layers: map<string, string>, m: Machine, ls: seq<Layer>)
    requires AtImage(images, m) && m.index < |images| && images[m.index].refCounter > 0 && LayersOk(ls)
    ensures var (m', o) := RunAll(images, layers, m, LayersMessages(ls) + Plains(images[m.index].refCounter));
      && o == Finished && AtImage(images, m') && m'.index == m.index + 1
      && Ends(m'.reported) == Ends(m.reported) + Story(images[m.index].uri, |ls|)
  {
    var n := images[m.index].refCounter;
    AllLayers(images, layers, m, ls);
    Closing(images, layers, RunAll(images, layers, m, LayersMessages(ls)).0, n);
    RunConcat(images, layers, m, LayersMessages(ls), Plains(n));
  }

  predicate LogsOk(images: seq<Image>, logs: seq<seq<Layer>>) {
    |images| == |logs| && forall i :: 0 <= i < |images| ==> images[i].refCounter > 0 && LayersOk(logs[i])
  }

  lemma FirstImage(images: seq<Image>, layers: map<string, string>, m: Machine, rest: seq<Image>,
                   logs: seq<seq<Layer>>) returns (next: Machine)
    requires AtImage(images, m) && rest == images[m.index..] && LogsOk(rest, logs) && rest != []
    ensures AtImage(images, next) && rest[1..] == images[next.index..]
    ensures RunAll(images, layers, m, Stream(rest, logs)) == RunAll(images, layers, next, Stream(rest[1..], logs[1..]))
    ensures Ends(next.reported) == Ends(m.reported) + Story(rest[0].uri, |logs[0]|)
  {
    assert images[m.index] == rest[0];
    var front := LayersMessages(logs[0]) + Plains(rest[0].refCounter);
    OneImage(images, layers, m, logs[0]);
    next := RunAll(images, layers, m, front).0;
    RunConcat(images, layers, m, front, Stream(rest[1..], logs[1..]));
  }

  lemma {:induction false} AllImages(images: seq<Image>, layers: map<string, string>, m: Machine, rest: seq<Image>,
                                     logs: seq<seq<Layer>>) returns (end: Machine)
    requires AtImage(images, m) && rest == images[m.index..] && LogsOk(rest, logs)
    ensures RunAll(images, layers, m, Stream(rest, logs)) == (end, Finished)
    ensures end.p.kind == ImageWaiting && end.index == |images| == |end.counters|
    ensures Ends(end.reported) == Ends(m.reported) + Expected(rest, logs)
    decreases |rest|
  {
    if rest == [] {
      end := m;
    } else {
      var next := FirstImage(images, layers, m, rest, logs);
      end := AllImages(images, layers, next, rest[1..], logs[1..]);
      Regroup(Ends(m.reported), Story(rest[0].uri, |logs[0]|), Expected(rest[1..], logs[1..]));
    }
  }

  lemma Regroup(a: seq<(Kind, string)>, b: seq<(Kind, string)>, c: seq<(Kind, string)>)
    ensures (a + b) + c == a + (b + c)
  {
  }

  /** For every well-formed stream the loop reads it to its end without a panic, and reports, image by image
      and in order, the writing and the end of every layer and then the end of the image. */
  lemma WellFormedStreamReportsEveryImage(images: seq<Image>, layers: map<string, string>, logs: seq<seq<Layer>>)
    requires LogsOk(images, logs) && images != []
    ensures var (m, o) := RunAll(images, layers, Initial(images), Stream(images, logs));
      o == Finished && Ends(m.reported) == Expected(images, logs)
  {
    assert images[0..] == images;
    var end := AllImages(images, layers, Initial(images), images, logs);
  }

  /** In particular it reports the end of every image exactly once: loaded if the image had a layer, there
      already if not. */
  lemma EveryImageEndsOnce(images: seq<Image>, layers: map<string, string>, logs: seq<seq<Layer>>)
    requires LogsOk(images, logs) && images != []
    ensures ImageEnds(Ends(RunAll(images, layers, Initial(images), Stream(images, logs)).0.reported))
         == seq(|images|, i requires 0 <= i < |images| =>
           (if logs[i] == [] then ImageExist else ImageLoaded, images[i].uri))
  {
    WellFormedStreamReportsEveryImage(images, layers, logs);
    ImageEndsOfExpected(images, logs);
  }

  lemma {:induction false} ImageEndsConcat(a: seq<(Kind, string)>, b: seq<(Kind, string)>)
    ensures ImageEnds(a + b) == ImageEnds(a) + ImageEnds(b)
  {
    if a == [] {
      assert a + b == b;
    } else {
      assert (a + b)[1..] == a[1..] + b && (a + b)[0] == a[0];
      ImageEndsConcat(a[1..], b);
      var head := if a[0].0 in {ImageLoaded, ImageExist} then [a[0]] else [];
      Regroup(head, ImageEnds(a[1..]), ImageEnds(b));
    }
  }

  lemma {:induction false} NoImageEndsInLayers(image: string, count: nat, follows: bool)
    ensures ImageEnds(LayersStory(image, count, follows)) == []
  {
    if count > 0 {
      NoImageEndsInLayers(image, count - 1, true);
      ImageEndsConcat(LayerEnded(image, follows) + [(LayerSyncing, image)], LayersStory(image, count - 1, true));
      ImageEndsConcat(LayerEnded(image, follows), [(LayerSyncing, image)]);
    }
  }

  lemma {:induction false} ImageEndsOfExpected(images: seq<Image>, logs: seq<seq<Layer>>)
    requires |images| == |logs|
    ensures ImageEnds(Expected(images, logs))
         == seq(|images|, i requires 0 <= i < |images| =>
           (if logs[i] == [] then ImageExist else ImageLoaded, images[i].uri))
  {
    if images != [] {
      var end := [(if logs[0] == [] then ImageExist else ImageLoaded, images[0].uri)];
      ImageEndsConcat(Story(images[0].uri, |logs[0]|), Expected(images[1..], logs[1..]));
      ImageEndsConcat(LayersStory(images[0].uri, |logs[0]|, false), end);
      NoImageEndsInLayers(images[0].uri, |logs[0]|, false);
      ImageEndsOfExpected(images[1..], logs[1..]);
    }
  }

  /** A layer of a single message makes the loop panic on the next message without progress, even when that
      single message was complete: the first message of a layer is never tested for completion. */
  lemma SingleMessageLayerPanics(images: seq<Image>, layers: map<string, string>, m: Machine, id: string,
                                 current: int, total: int, rest: seq<Message>)
    requires m.p.kind == ImageWaiting
    ensures RunAll(images, layers, m, [Progress(id, current, total), Plain] + rest).1 == Panicked
  {
    var msgs := [Progress(id, current, total), Plain] + rest;
    assert msgs[1..][0] == Plain;
  }

  /** So does a message without progress after the last image. */
  lemma SurplusMessagePanics(images: seq<Image>, layers: map<string, string>, logs: seq<seq<Layer>>)
    requires LogsOk(images, logs) && images != []
    ensures RunAll(images, layers, Initial(images), Stream(images, logs) + [Plain]).1 == Panicked
  {
    assert images[0..] == images;
    var end := AllImages(images, layers, Initial(images), images, logs);
    RunConcat(images, layers, Initial(images), Stream(images, logs), [Plain]);
  }

  // ---------- Exactly how the loop ends ----------

  function PlainsIn(msgs: seq<Message>): nat {
    if msgs == [] then 0 else PlainsIn(msgs[..|msgs| - 1]) + (if msgs[|msgs| - 1] == Plain then 1 else 0)
  }

  function RefSum(images: seq<Image>): int {
    if images == [] then 0 else images[0].refCounter + RefSum(images[1..])
  }

  /** How many images so many messages without progress end. An image whose counter is not positive never
      ends. */
  function ImagesEnded(images: seq<Image>, plains: nat): nat {
    if images == [] || images[0].refCounter <= 0 || plains < images[0].refCounter then 0
    else 1 + ImagesEnded(images[1..], plains - images[0].refCounter)
  }

  /** What is then left of the counter of the image after those. */
  function CounterLeft(images: seq<Image>, plains: nat): int {
    if images == [] then 0
    else if images[0].refCounter <= 0 || plains < images[0].refCounter then images[0].refCounter - plains
    else CounterLeft(images[1..], plains - images[0].refCounter)
  }

  /** All images are through: their counters are positive, and there were at least as many messages without
      progress. */
  predicate NoneLeft(images: seq<Image>, plains: nat) {
    plains >= RefSum(images) && forall i :: 0 <= i < |images| ==> images[i].refCounter > 0
  }

  lemma {:induction false} NoneLeftExactly(images: seq<Image>, plains: nat)
    ensures ImagesEnded(images, plains) <= |images|
    ensures ImagesEnded(images, plains) == |images| <==> NoneLeft(images, plains)
  {
    if images != [] {
      assert forall i :: 0 < i < |images| ==> images[i] == images[1..][i - 1];
      if images[0].refCounter > 0 && plains >= images[0].refCounter {
        NoneLeftExactly(images[1..], plains - images[0].refCounter);
        assert forall i :: 0 <= i < |images| - 1 ==> images[1..][i] == images[i + 1];
      } else if images[0].refCounter > 0 && NoneLeft(images, plains) {
        RefSumPositive(images[1..]);
      }
    }
  }

  lemma {:induction false} RefSumPositive(images: seq<Image>)
    requires forall i :: 0 <= i < |images| ==> images[i].refCounter > 0
    ensures RefSum(images) >= 0
  {
    if images != [] {
      RefSumPositive(images[1..]);
    }
  }

  /** One more message without progress. */
  lemma {:induction false} EndedStep(images: seq<Image>, plains: nat)
    ensures ImagesEnded(images, plains) <= |images|
    ensures var i := ImagesEnded(images, plains);
      if i < |images| && CounterLeft(images, plains) == 1 then
        && ImagesEnded(images, plains + 1) == i + 1
        && (i + 1 < |images| ==> CounterLeft(images, plains + 1) == images[i + 1].refCounter)
      else
        && ImagesEnded(images, plains + 1) == i
        && (i < |images| ==> CounterLeft(images, plains + 1) == CounterLeft(images, plains) - 1)
  {
    if images != [] && images[0].refCounter > 0 && plains >= images[0].refCounter {
      EndedStep(images[1..], plains - images[0].refCounter);
    }
  }

  /** A message after the j-th and before the k-th tells that all of the layer is written. */
  predicate WrittenBetween(msgs: seq<Message>, j: nat, k: nat)
    requires k <= |msgs|
  {
    exists i :: j < i < k && msgs[i].Progress? && msgs[i].current == msgs[i].total
  }

  /** The message that began the layer the first k messages leave the stream in; none between images. */
  function LayerBegun(images: seq<Image>, msgs: seq<Message>, k: nat): (j: Option<nat>)
    requires k <= |msgs|
    ensures j.Some? ==> j.value < k && msgs[j.value].Progress?
  {
    if k == 0 then None
    else
      var before := LayerBegun(images, msgs, k - 1);
      match msgs[k - 1]
      case Plain =>
        if ImagesEnded(images, PlainsIn(msgs[..k])) > ImagesEnded(images, PlainsIn(msgs[..k - 1])) then None else before
      case Progress(id, _, _) =>
        if before.None? || (WrittenBetween(msgs, before.value, k - 1) && msgs[before.value].id != id) then Some(k - 1)
        else before
      case DaemonError => before
  }

  /** The k-th message is without progress although the layer begun last has had no later message that tells
      it is written, or although no image is left. */
  predicate PanicsAt(images: seq<Image>, msgs: seq<Message>, k: nat)
    requires k < |msgs|
  {
    msgs[k] == Plain &&
    ((LayerBegun(images, msgs, k).Some? && !WrittenBetween(msgs, LayerBegun(images, msgs, k).value, k))
      || NoneLeft(images, PlainsIn(msgs[..k])))
  }

  /** Where the machine stands after the first k messages. */
  ghost predicate InStep(images: seq<Image>, msgs: seq<Message>, k: nat, m: Machine)
    requires k <= |msgs|
  {
    var plains := PlainsIn(msgs[..k]);
    && |m.counters| == |images| && m.index == ImagesEnded(images, plains) <= |images|
    && (m.index < |images| ==> m.counters[m.index] == CounterLeft(images, plains))
    && (forall i :: m.index < i < |images| ==> m.counters[i] == images[i].refCounter)
    && match LayerBegun(images, msgs, k)
       case None => m.p.kind == ImageWaiting
       case Some(j) =>
         && m.layerId == msgs[j].id
         && m.p.kind == if WrittenBetween(msgs, j, k) then LayerSyncing else LayerLoading
  }

  lemma WrittenOneMore(msgs: seq<Message>, j: nat, k: nat)
    requires k < |msgs|
    ensures WrittenBetween(msgs, j, k + 1) <==>
      WrittenBetween(msgs, j, k) || (j < k && msgs[k].Progress? && msgs[k].current == msgs[k].total)
  {
  }

  lemma HandleInStep(images: seq<Image>, layers: map<string, string>, msgs: seq<Message>, k: nat, m: Machine)
    requires k < |msgs| && msgs[k] != DaemonError && InStep(images, msgs, k, m)
    ensures Handle(images, layers, m, msgs[k]).None? <==> PanicsAt(images, msgs, k)
    ensures Handle(images, layers, m, msgs[k]).Some? ==>
      InStep(images, msgs, k + 1, Handle(images, layers, m, msgs[k]).value)
  {
    assert msgs[..k + 1][..k] == msgs[..k];
    var plains := PlainsIn(msgs[..k]);
    NoneLeftExactly(images, plains);
    EndedStep(images, plains);
    var begun := LayerBegun(images, msgs, k);
    if begun.Some? {
      WrittenOneMore(msgs, begun.value, k);
    }
    assert !WrittenBetween(msgs, k, k + 1);
  }

  /** A run that has ended stays ended. */
  lemma {:induction false} RunStays(images: seq<Image>, layers: map<string, string>, m: Machine, a: seq<Message>,
                                    b: seq<Message>)
    requires RunAll(images, layers, m, a).1 != Finished
    ensures RunAll(images, layers, m, a + b) == RunAll(images, layers, m, a)
    decreases |a|
  {
    assert (a + b)[0] == a[0] && (a + b)[1..] == a[1..] + b;
    if a[0] != DaemonError && Handle(images, layers, m, a[0]).Some? {
      RunStays(images, layers, Handle(images, layers, m, a[0]).value, a[1..], b);
    }
  }

  predicate Stops(images: seq<Image>, msgs: seq<Message>, k: nat)
    requires k < |msgs|
  {
    msgs[k] == DaemonError || PanicsAt(images, msgs, k)
  }

  /** The place of the first message at which the loop stops, or the end of the stream. */
  predicate ReadsUpTo(images: seq<Image>, msgs: seq<Message>, n: nat) {
    && n <= |msgs| && (n < |msgs| ==> Stops(images, msgs, n))
    && forall k :: 0 <= k < n ==> !Stops(images, msgs, k)
  }

  lemma FirstStop(images: seq<Image>, msgs: seq<Message>) returns (n: nat)
    ensures ReadsUpTo(images, msgs, n)
  {
    n := 0;
    while n < |msgs| && !Stops(images, msgs, n)
      invariant n <= |msgs| && forall k :: 0 <= k < n ==> !Stops(images, msgs, k)
    {
      n := n + 1;
    }
  }

  /** As long as no message stops it, the machine stands where the messages say. */
  lemma {:induction false} ReadsOn(images: seq<Image>, layers: map<string, string>, msgs: seq<Message>, n: nat)
    requires n <= |msgs| && forall k :: 0 <= k < n ==> !Stops(images, msgs, k)
    ensures var (m, o) := RunAll(images, layers, Initial(images), msgs[..n]);
      o == Finished && InStep(images, msgs, n, m)
  {
    if n == 0 {
      InitialInStep(images, msgs);
    } else {
      ReadsOn(images, layers, msgs, n - 1);
      var m := RunAll(images, layers, Initial(images), msgs[..n - 1]).0;
      RunOneMore(images, layers, Initial(images), msgs, n - 1);
      assert !Stops(images, msgs, n - 1);
      HandleInStep(images, layers, msgs, n - 1, m);
    }
  }

  /** The first message that stops the loop decides how it ends. */
  lemma EndsAt(images: seq<Image>, layers: map<string, string>, msgs: seq<Message>, n: nat)
    requires ReadsUpTo(images, msgs, n)
    ensures RunAll(images, layers, Initial(images), msgs) ==
      (RunAll(images, layers, Initial(images), msgs[..n]).0,
       if n == |msgs| then Finished else if msgs[n] == DaemonError then DaemonFailed else Panicked)
  {
    ReadsOn(images, layers, msgs, n);
    if n == |msgs| {
      assert msgs[..n] == msgs;
    } else {
      RunOneMore(images, layers, Initial(images), msgs, n);
      if msgs[n] != DaemonError {
        HandleInStep(images, layers, msgs, n, RunAll(images, layers, Initial(images), msgs[..n]).0);
      }
      assert msgs == msgs[..n + 1] + msgs[n + 1..];
      RunStays(images, layers, Initial(images), msgs[..n + 1], msgs[n + 1..]);
    }
  }

  lemma InitialInStep(images: seq<Image>, msgs: seq<Message>)
    ensures InStep(images, msgs, 0, Initial(images))
  {
    assert msgs[..0] == [];
  }

  /** For every stream: the loop panics exactly when some message without progress comes while the layer begun
      last is not told to be written, or when no image is left, and no daemon error comes before it. */
  lemma PanicsExactly(images: seq<Image>, layers: map<string, string>, msgs: seq<Message>)
    ensures RunAll(images, layers, Initial(images), msgs).1 == Panicked
       <==> exists k :: 0 <= k < |msgs| && PanicsAt(images, msgs, k) && DaemonError !in msgs[..k]
    ensures RunAll(images, layers, Initial(images), msgs).1 == Finished
       <==> forall k :: 0 <= k < |msgs| ==> msgs[k] != DaemonError && !PanicsAt(images, msgs, k)
  {
    var n := FirstStop(images, msgs);
    EndsAt(images, layers, msgs, n);
    PanicIsFirst(images, msgs, n);
    forall k | 0 <= k < n ensures msgs[k] != DaemonError && !PanicsAt(images, msgs, k) {
      assert !Stops(images, msgs, k);
    }
  }

  /** No daemon error comes before some panic exactly when the first message that stops the loop is one. */
  lemma PanicIsFirst(images: seq<Image>, msgs: seq<Message>, n: nat)
    requires ReadsUpTo(images, msgs, n)
    ensures n < |msgs| && msgs[n] != DaemonError
       <==> exists k :: 0 <= k < |msgs| && PanicsAt(images, msgs, k) && DaemonError !in msgs[..k]
  {
    if k :| 0 <= k < |msgs| && PanicsAt(images, msgs, k) && DaemonError !in msgs[..k] {
      assert Stops(images, msgs, k);
      assert n < k ==> msgs[..k][n] == msgs[n];
    }
    if n < |msgs| && msgs[n] != DaemonError {
      forall j | 0 <= j < n ensures msgs[j] != DaemonError {
        assert !Stops(images, msgs, j);
      }
      assert PanicsAt(images, msgs, n) && DaemonError !in msgs[..n];
    }
  }

  // ---------- Exactly what the loop reports ----------

  /** What a report tells: of the end of a layer its name, of the end of an image the image alone. */
  function Shown(r: Report): Report {
    if r.kind == LayerLoading || r.kind == LayerSyncing then r
    else if r.kind == LayerLoaded then Report(LayerLoaded, r.image, r.layer, 0, 0)
    else Report(r.kind, r.image, "", 0, 0)
  }

  function ShownAll(rs: seq<Report>): seq<Report> {
    seq(|rs|, i requires 0 <= i < |rs| => Shown(rs[i]))
  }

  /** The image the stream has come to after its first k messages. */
  function CurrentImage(images: seq<Image>, msgs: seq<Message>, k: nat): string
    requires k <= |msgs|
  {
    ImageAt(images, ImagesEnded(images, PlainsIn(msgs[..k])))
  }

  /** What the k-th message makes the loop tell: the amounts of a layer being loaded, each with the message's own
      current and total, and that it is written once these agree; the end of a layer when another one begins;
      the end of an image with the last of its messages without progress. */
  function TellsAt(images: seq<Image>, layers: map<string, string>, msgs: seq<Message>, k: nat): seq<Report>
    requires k < |msgs|
  {
    var image, begun := CurrentImage(images, msgs, k), LayerBegun(images, msgs, k);
    match msgs[k]
    case DaemonError => []
    case Plain =>
      if ImagesEnded(images, PlainsIn(msgs[..k]) + 1) > ImagesEnded(images, PlainsIn(msgs[..k])) then
        [Report(if begun.None? then ImageExist else ImageLoaded, image, "", 0, 0)]
      else []
    case Progress(id, current, total) =>
      var loading := Report(LayerLoading, image, Label(layers, id), current, total);
      match begun
      case None => [loading]
      case Some(j) =>
        var layer := Label(layers, msgs[j].id);
        if !WrittenBetween(msgs, j, k) then
          [Report(LayerLoading, image, layer, current, total)]
          + (if current == total then [Report(LayerSyncing, image, layer, current, total)] else [])
        else if id == msgs[j].id then []
        else [Report(LayerLoaded, image, layer, 0, 0), loading]
  }

  function AllTold(images: seq<Image>, layers: map<string, string>, msgs: seq<Message>, n: nat): seq<Report>
    requires n <= |msgs|
  {
    if n == 0 then [] else AllTold(images, layers, msgs, n - 1) + TellsAt(images, layers, msgs, n - 1)
  }

  /** The machine names the current image and layer. */
  ghost predicate NamesRightly(images: seq<Image>, layers: map<string, string>, msgs: seq<Message>, k: nat, m: Machine)
    requires k <= |msgs|
  {
    && m.p.image == CurrentImage(images, msgs, k)
    && var begun := LayerBegun(images, msgs, k); begun.Some? ==> m.p.layer == Label(layers, msgs[begun.value].id)
  }

  lemma ShownOfOne(rs: seq<Report>, r: Report)
    ensures ShownAll(rs + [r]) == ShownAll(rs) + [Shown(r)]
  {
  }

  lemma PlainTells(images: seq<Image>, layers: map<string, string>, msgs: seq<Message>, k: nat, m: Machine)
    requires k < |msgs| && InStep(images, msgs, k, m) && NamesRightly(images, layers, msgs, k, m)
    requires msgs[k] == Plain && Handle(images, layers, m, msgs[k]).Some?
    ensures var next := Handle(images, layers, m, msgs[k]).value;
      && NamesRightly(images, layers, msgs, k + 1, next)
      && ShownAll(next.reported) == ShownAll(m.reported) + TellsAt(images, layers, msgs, k)
  {
    var next := Handle(images, layers, m, msgs[k]).value;
    HandleInStep(images, layers, msgs, k, m);
    assert msgs[..k + 1][..k] == msgs[..k];
    EndedStep(images, PlainsIn(msgs[..k]));
    if next.index > m.index {
      ShownOfOne(m.reported, m.p.(kind := if m.p.kind == ImageWaiting then ImageExist else ImageLoaded));
    }
  }

  lemma ProgressTells(images: seq<Image>, layers: map<string, string>, msgs: seq<Message>, k: nat, m: Machine)
    requires k < |msgs| && InStep(images, msgs, k, m) && NamesRightly(images, layers, msgs, k, m)
    requires msgs[k].Progress? && Handle(images, layers, m, msgs[k]).Some?
    ensures var next := Handle(images, layers, m, msgs[k]).value;
      && NamesRightly(images, layers, msgs, k + 1, next)
      && ShownAll(next.reported) == ShownAll(m.reported) + TellsAt(images, layers, msgs, k)
  {
    var next := Handle(images, layers, m, msgs[k]).value;
    HandleInStep(images, layers, msgs, k, m);
    assert msgs[..k + 1][..k] == msgs[..k];
    if m.p.kind == ImageWaiting {
      ShownOfOne(m.reported, next.p);
    } else if m.p.kind == LayerLoading {
      var told := m.p.(current := msgs[k].current, total := msgs[k].total);
      ShownOfOne(m.reported, told);
      ShownOfOne(m.reported + [told], told.(kind := LayerSyncing));
    } else if m.layerId != msgs[k].id {
      ShownOfOne(m.reported, m.p.(kind := LayerLoaded));
      ShownOfOne(m.reported + [m.p.(kind := LayerLoaded)], next.p);
    }
  }

  lemma {:induction false} ToldAfter(images: seq<Image>, layers: map<string, string>, msgs: seq<Message>, n: nat)
    requires n <= |msgs| && forall k :: 0 <= k < n ==> !Stops(images, msgs, k)
    ensures var m := RunAll(images, layers, Initial(images), msgs[..n]).0;
      && NamesRightly(images, layers, msgs, n, m)
      && ShownAll(m.reported) == AllTold(images, layers, msgs, n)
  {
    if n == 0 {
      InitialInStep(images, msgs);
    } else {
      ToldAfter(images, layers, msgs, n - 1);
      ReadsOn(images, layers, msgs, n - 1);
      var m := RunAll(images, layers, Initial(images), msgs[..n - 1]).0;
      RunOneMore(images, layers, Initial(images), msgs, n - 1);
      assert !Stops(images, msgs, n - 1);
      HandleInStep(images, layers, msgs, n - 1, m);
      if msgs[n - 1] == Plain {
        PlainTells(images, layers, msgs, n - 1, m);
      } else {
        ProgressTells(images, layers, msgs, n - 1, m);
      }
    }
  }

  /** For every stream: the loop reports exactly what the messages tell that come before the one at which it
      stops, if it stops at one. */
  lemma ReportsExactly(images: seq<Image>, layers: map<string, string>, msgs: seq<Message>, n: nat)
    requires ReadsUpTo(images, msgs, n)
    ensures ShownAll(RunAll(images, layers, Initial(images), msgs).0.reported) == AllTold(images, layers, msgs, n)
  {
    EndsAt(images, layers, msgs, n);
    ToldAfter(images, layers, msgs, n);
  }
}
