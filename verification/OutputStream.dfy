// The live output of a pane (stream.go), the two critical sections that order it
// against attach seeds (pipeline.go), and the client that follows it (main.go).
// Sequence numbers are unbounded, where the daemon's wrap after 2^64 chunks.
module OutputStream {
  import opened Text

  const MAX_CHUNK_BYTES: nat := 0x10_0000

  datatype Output = Output(sequence: nat, data: string)

  // ---- What the stream holds --------------------------------------------

  function Bytes(outputs: seq<Output>): string {
    if outputs == [] then "" else Bytes(outputs[..|outputs| - 1]) + outputs[|outputs| - 1].data
  }

  datatype Log = Log(sequence: nat, outputs: seq<Output>)

  // Chunks are numbered from 1 without a gap, and none is empty or oversize.
  predicate Sound(log: Log) {
    && log.sequence == |log.outputs|
    && forall i | 0 <= i < |log.outputs| ::
         log.outputs[i].sequence == i + 1 && 0 < |log.outputs[i].data| <= MAX_CHUNK_BYTES
  }

  // Append: full chunks, then what is left.
  function Appended(log: Log, data: string): Log
    decreases |data|
  {
    if data == "" then log
    else
      var size := if |data| < MAX_CHUNK_BYTES then |data| else MAX_CHUNK_BYTES;
      var next := log.sequence + 1;
      Appended(Log(next, log.outputs + [Output(next, data[..size])]), data[size..])
  }

  lemma OneMore(log: Log, data: string)
    requires Sound(log) && 0 < |data| <= MAX_CHUNK_BYTES
    ensures var outputs := log.outputs + [Output(log.sequence + 1, data)];
            Sound(Log(log.sequence + 1, outputs)) && Bytes(outputs) == Bytes(log.outputs) + data
  {
    var outputs := log.outputs + [Output(log.sequence + 1, data)];
    assert outputs[..|outputs| - 1] == log.outputs;
  }

  lemma {:induction false} AppendKeeps(log: Log, data: string)
    requires Sound(log)
    ensures var r := Appended(log, data);
            && Sound(r) && Bytes(r.outputs) == Bytes(log.outputs) + data
            && log.outputs <= r.outputs && (data != "" ==> log.sequence < r.sequence)
            && forall i | |log.outputs| <= i < |r.outputs| - 1 :: |r.outputs[i].data| == 1048576
    decreases |data|
  {
    hide Sound, Bytes;
    if data == "" {
      assert Bytes(log.outputs) + data == Bytes(log.outputs);
    } else {
      var size := if |data| < MAX_CHUNK_BYTES then |data| else MAX_CHUNK_BYTES;
      OneMore(log, data[..size]);
      AppendKeeps(Log(log.sequence + 1, log.outputs + [Output(log.sequence + 1, data[..size])]), data[size..]);
      assert Bytes(log.outputs) + data[..size] + data[size..] == Bytes(log.outputs) + data;
    }
  }

  lemma {:induction false} BytesSplit(outputs: seq<Output>, i: nat)
    requires i <= |outputs|
    ensures Bytes(outputs) == Bytes(outputs[..i]) + Bytes(outputs[i..])
    decreases |outputs| - i
  {
    if i == |outputs| {
      assert outputs[..i] == outputs && outputs[i..] == [];
      assert Bytes(outputs) + "" == Bytes(outputs);
    } else {
      var n := |outputs| - 1;
      BytesSplit(outputs[..n], i);
      assert outputs[..n][..i] == outputs[..i] && outputs[..n][i..] == outputs[i..][..n - i];
      assert outputs[i..][|outputs[i..]| - 1] == outputs[n];
    }
  }

  lemma BytesCons(outputs: seq<Output>)
    requires outputs != []
    ensures Bytes(outputs) == outputs[0].data + Bytes(outputs[1..])
  {
    BytesSplit(outputs, 1);
    var first := outputs[..1];
    assert Bytes(first[..0]) == "" && "" + first[0].data == first[0].data;
    assert Bytes(first) == Bytes(first[..0]) + first[0].data;
  }

  // ---- A bounded response ------------------------------------------------

  // OutputsFromBounded's second loop: how many chunks go. The first always does, the
  // others while they fit. A zero limit is no limit.
  function Taken(outputs: seq<Output>, limit: nat, bytes: nat, some: bool): (n: nat)
    ensures n <= |outputs|
  {
    if outputs == [] || (limit > 0 && some && bytes + |outputs[0].data| > limit) then 0
    else 1 + Taken(outputs[1..], limit, bytes + |outputs[0].data|, true)
  }

  // From the first chunk numbered `from` or later.
  function From(outputs: seq<Output>, from: nat): (r: seq<Output>)
  {
    if outputs == [] || outputs[0].sequence >= from then outputs else From(outputs[1..], from)
  }

  function Response(log: Log, from: nat, limit: nat): seq<Output> {
    var wanted := From(log.outputs, from);
    wanted[..Taken(wanted, limit, 0, false)]
  }

  lemma {:induction false} FromIsSuffix(outputs: seq<Output>, first: nat, from: nat)
    requires forall i | 0 <= i < |outputs| :: outputs[i].sequence == first + i
    ensures From(outputs, from)
            == if from <= first then outputs else if from - first < |outputs| then outputs[from - first..] else []
  {
    if outputs != [] && outputs[0].sequence < from {
      FromIsSuffix(outputs[1..], first + 1, from);
      if from - first < |outputs| { assert outputs[1..][from - first - 1..] == outputs[from - first..]; }
    }
  }

  lemma {:induction false} TakenFits(outputs: seq<Output>, limit: nat, bytes: nat, some: bool)
    requires limit > 0
    ensures var n := Taken(outputs, limit, bytes, some); var sent := bytes + |Bytes(outputs[..n])|;
            && (n > 0 ==> sent <= limit || (!some && n == 1))
            && (n < |outputs| ==> sent + |outputs[n].data| > limit)
            && (outputs != [] && !some ==> n > 0)
  {
    BytesOfNone(outputs[..0]);
    hide Bytes;
    if outputs == [] || (some && bytes + |outputs[0].data| > limit) {
    } else {
      TakenFits(outputs[1..], limit, bytes + |outputs[0].data|, true);
      var r := outputs[..Taken(outputs, limit, bytes, some)];
      BytesCons(r);
      assert r[1..] == outputs[1..][..|r| - 1];
    }
  }

  lemma BytesOfNone(outputs: seq<Output>)
    requires outputs == []
    ensures Bytes(outputs) == ""
  {
  }

  lemma BytesSnoc(outputs: seq<Output>)
    requires outputs != []
    ensures Bytes(outputs) == Bytes(outputs[..|outputs| - 1]) + outputs[|outputs| - 1].data
  {
  }

  // Where a response begins, and what is left after it.
  lemma ResponseIsSlice(log: Log, from: nat, limit: nat)
    requires Sound(log) && 1 <= from <= log.sequence && limit > 0
    ensures var wanted := log.outputs[from - 1..]; var n := Taken(wanted, limit, 0, false);
            && Response(log, from, limit) == wanted[..n] == log.outputs[from - 1..from - 1 + n]
            && 1 <= n <= log.sequence + 1 - from
  {
    hide Bytes;
    FromIsSuffix(log.outputs, 1, from);
    TakenFits(log.outputs[from - 1..], limit, 0, false);
    SliceTwice(log.outputs, from - 1, Taken(log.outputs[from - 1..], limit, 0, false));
  }

  lemma OneChunk(log: Log, i: nat)
    requires Sound(log) && i < log.sequence
    ensures |Bytes(log.outputs[i..i + 1])| <= MAX_CHUNK_BYTES
  {
    BytesCons(log.outputs[i..i + 1]);
    BytesOfNone(log.outputs[i..i + 1][1..]);
  }

  // The bytes of a response and of the chunk after it.
  lemma BytesOfNext(outputs: seq<Output>, i: nat, n: nat)
    requires i + n < |outputs|
    ensures Bytes(outputs[i..i + n + 1]) == Bytes(outputs[i..][..n]) + outputs[i..][n].data
  {
    hide Bytes;
    var longer := outputs[i..i + n + 1];
    assert longer[..n] == outputs[i..][..n] && longer[n] == outputs[i..][n];
    BytesSnoc(longer);
  }

  // A response is the longest run of chunks from the requested one that fits the limit,
  // or the one chunk that does not fit alone. A limit that holds every chunk is kept.
  lemma ResponseIsLongest(log: Log, from: nat, limit: nat)
    requires Sound(log) && 1 <= from <= log.sequence && limit > 0
    ensures var r := Response(log, from, limit); var n := |r|;
            && 1 <= n <= log.sequence + 1 - from && r == log.outputs[from - 1..from - 1 + n]
            && (|Bytes(r)| <= limit || n == 1)
            && (limit >= MAX_CHUNK_BYTES ==> |Bytes(r)| <= limit)
            && (from - 1 + n < log.sequence ==> |Bytes(log.outputs[from - 1..from + n])| > limit)
  {
    hide Bytes, Taken, Response, From, Sound;
    NumberedByPlace(log);
    ResponseIsSlice(log, from, limit);
    TakenFits(log.outputs[from - 1..], limit, 0, false);
    var n := |Response(log, from, limit)|;
    if n == 1 { OneChunk(log, from - 1); }
    if from - 1 + n < log.sequence { BytesOfNext(log.outputs, from - 1, n); }
  }

  lemma NumberedByPlace(log: Log)
    requires Sound(log)
    ensures log.sequence == |log.outputs|
  {
  }

  lemma SliceTwice(outputs: seq<Output>, i: nat, n: nat)
    requires i + n <= |outputs|
    ensures outputs[i..][..n] == outputs[i..i + n]
  {
  }

  lemma ResponseIsEmpty(log: Log, from: nat, limit: nat)
    requires Sound(log) && log.sequence < from
    ensures Response(log, from, limit) == []
  {
    FromIsSuffix(log.outputs, 1, from);
  }

  lemma {:induction false} TakenUnbounded(outputs: seq<Output>, bytes: nat, some: bool)
    ensures Taken(outputs, 0, bytes, some) == |outputs|
  {
    if outputs != [] { TakenUnbounded(outputs[1..], bytes + |outputs[0].data|, true); }
  }

  lemma FromStep(outputs: seq<Output>, i: nat, from: nat)
    requires i <= |outputs|
    ensures From(outputs[i..], from)
            == if i < |outputs| && outputs[i].sequence < from then From(outputs[i + 1..], from) else outputs[i..]
    ensures outputs[0..] == outputs
  {
    if i < |outputs| { assert outputs[i..][1..] == outputs[i + 1..]; }
  }

  lemma TakenStep(outputs: seq<Output>, i: nat, limit: nat, bytes: nat, some: bool)
    requires i <= |outputs|
    ensures Taken(outputs[i..], limit, bytes, some)
            == if i == |outputs| || (limit > 0 && some && bytes + |outputs[i].data| > limit) then 0
               else 1 + Taken(outputs[i + 1..], limit, bytes + |outputs[i].data|, true)
  {
    if i < |outputs| { assert outputs[i..][1..] == outputs[i + 1..]; }
  }

  // ---- The client --------------------------------------------------------

  // A client has the bytes its seed was built from, the sequence it wants next and the
  // bytes it has written since.
  datatype Client = Client(seed: string, next: nat, written: string)

  // relayAttachedSession: chunks already seen are skipped.
  function Received(client: Client, outputs: seq<Output>): Client
    decreases |outputs|
  {
    if outputs == [] then client
    else
      var o := outputs[0];
      Received(if o.sequence < client.next then client
               else client.(next := o.sequence + 1, written := client.written + o.data),
               outputs[1..])
  }

  // The client's screen is exactly what the stream held before the chunk it wants next.
  predicate InStep(log: Log, client: Client) {
    1 <= client.next <= |log.outputs| + 1 && client.seed + client.written == Bytes(log.outputs[..client.next - 1])
  }

  // A run of chunks of the stream that does not begin past the one the client wants.
  predicate Genuine(log: Log, outputs: seq<Output>, next: nat) {
    outputs == [] ||
    var first := outputs[0].sequence;
    1 <= first <= next && first - 1 + |outputs| <= |log.outputs| && outputs == log.outputs[first - 1..first - 1 + |outputs|]
  }

  lemma {:induction false} ReceiveKeepsStep(log: Log, client: Client, outputs: seq<Output>)
    requires Sound(log) && InStep(log, client) && Genuine(log, outputs, client.next)
    ensures var r := Received(client, outputs);
            && InStep(log, r) && r.seed == client.seed
            && r.next == (if outputs == [] || outputs[|outputs| - 1].sequence < client.next then client.next
                          else outputs[|outputs| - 1].sequence + 1)
    decreases |outputs|
  {
    if outputs != [] {
      var o, rest := outputs[0], outputs[1..];
      var moved := if o.sequence < client.next then client
                   else client.(next := o.sequence + 1, written := client.written + o.data);
      OneReceived(log, client, outputs);
      hide Sound, InStep, Genuine;
      ReceiveKeepsStep(log, moved, rest);
    }
  }

  lemma OneReceived(log: Log, client: Client, outputs: seq<Output>)
    requires Sound(log) && InStep(log, client) && Genuine(log, outputs, client.next) && outputs != []
    ensures var o := outputs[0];
            var moved := if o.sequence < client.next then client
                         else client.(next := o.sequence + 1, written := client.written + o.data);
            && InStep(log, moved) && Genuine(log, outputs[1..], moved.next)
            && (|outputs| > 1 ==> o.sequence < outputs[|outputs| - 1].sequence && o.sequence <= client.next)
  {
    var o, rest := outputs[0], outputs[1..];
    assert o == log.outputs[o.sequence - 1];
    if o.sequence == client.next { ChunkReceived(log, client, o); }
    if rest != [] {
      assert rest[0] == log.outputs[o.sequence];
      assert rest == log.outputs[o.sequence..o.sequence + |rest|];
      assert outputs[|outputs| - 1] == log.outputs[o.sequence - 1 + |rest|];
    }
  }

  lemma ChunkReceived(log: Log, client: Client, o: Output)
    requires InStep(log, client) && client.next <= |log.outputs| && o == log.outputs[client.next - 1]
    requires o.sequence == client.next
    ensures InStep(log, client.(next := o.sequence + 1, written := client.written + o.data))
  {
    var prefix := log.outputs[..o.sequence];
    assert prefix[..|prefix| - 1] == log.outputs[..client.next - 1];
    assert client.seed + (client.written + o.data) == client.seed + client.written + o.data;
  }

  // ---- Every interleaving ------------------------------------------------

  // `fed` is everything the authoritative shadow has consumed; `responses` are the
  // answers the daemon has given and the client may still read, in any order and any
  // number of times.
  datatype World = World(fed: string, log: Log, client: Option<Client>, responses: seq<seq<Output>>)

  datatype Step =
    | Pump(data: string)
    | Attach
    | Ask(limit: nat)
    | Deliver(response: nat)

  function Start(): World {
    World("", Log(0, []), None, [])
  }

  predicate Enabled(w: World, step: Step) {
    match step
    case Pump(data) => data != ""
    case Attach => true
    case Ask(_) => w.client.Some?
    case Deliver(response) => w.client.Some? && response < |w.responses|
  }

  // Pump feeds the shadow and appends under one lock; Attach reads both under it.
  function Apply(w: World, step: Step): World
    requires Enabled(w, step)
  {
    match step
    case Pump(data) => w.(fed := w.fed + data, log := Appended(w.log, data))
    case Attach => w.(client := Some(Client(w.fed, w.log.sequence + 1, "")))
    case Ask(limit) => w.(responses := w.responses + [Response(w.log, w.client.value.next, limit)])
    case Deliver(response) => w.(client := Some(Received(w.client.value, w.responses[response])))
  }

  predicate Valid(w: World, steps: seq<Step>)
    decreases |steps|
  {
    steps == [] || (Enabled(w, steps[0]) && Valid(Apply(w, steps[0]), steps[1..]))
  }

  function Run(w: World, steps: seq<Step>): World
    requires Valid(w, steps)
    decreases |steps|
  {
    if steps == [] then w else Run(Apply(w, steps[0]), steps[1..])
  }

  predicate Inv(w: World) {
    && Sound(w.log) && Bytes(w.log.outputs) == w.fed
    && (w.client.None? ==> w.responses == [])
    && (w.client.Some? ==>
          && InStep(w.log, w.client.value)
          && forall i | 0 <= i < |w.responses| :: Genuine(w.log, w.responses[i], w.client.value.next))
  }

  lemma GrowthIsHarmless(log: Log, grown: Log, client: Client, outputs: seq<Output>)
    requires log.outputs <= grown.outputs
    ensures InStep(log, client) ==> InStep(grown, client)
    ensures Genuine(log, outputs, client.next) ==> Genuine(grown, outputs, client.next)
  {
    if InStep(log, client) { assert grown.outputs[..client.next - 1] == log.outputs[..client.next - 1]; }
    if outputs != [] && Genuine(log, outputs, client.next) {
      var first := outputs[0].sequence;
      assert grown.outputs[first - 1..first - 1 + |outputs|] == log.outputs[first - 1..first - 1 + |outputs|];
    }
  }

  lemma SliceIsGenuine(log: Log, next: nat, n: nat)
    requires Sound(log) && 1 <= next && next - 1 + n <= log.sequence
    ensures Genuine(log, log.outputs[next - 1..next - 1 + n], next)
  {
  }

  lemma UnboundedResponse(log: Log, next: nat)
    requires Sound(log) && 1 <= next <= log.sequence
    ensures Response(log, next, 0) == log.outputs[next - 1..]
  {
    FromIsSuffix(log.outputs, 1, next);
    TakenUnbounded(From(log.outputs, next), 0, false);
  }

  lemma ResponseIsGenuine(log: Log, next: nat, limit: nat)
    requires Sound(log) && 1 <= next <= log.sequence + 1
    ensures Genuine(log, Response(log, next, limit), next)
  {
    hide Response, Bytes;
    if next == log.sequence + 1 {
      ResponseIsEmpty(log, next, limit);
    } else if limit > 0 {
      ResponseIsLongest(log, next, limit);
      SliceIsGenuine(log, next, |Response(log, next, limit)|);
    } else {
      UnboundedResponse(log, next);
      SliceIsGenuine(log, next, log.sequence + 1 - next);
    }
  }

  lemma StepKeepsInv(w: World, step: Step)
    requires Inv(w) && Enabled(w, step)
    ensures Inv(Apply(w, step))
  {
    hide Sound, Appended, Response, Received, InStep, Genuine, Bytes;
    match step
    case Pump(data) =>
      AppendKeeps(w.log, data);
      var grown := Appended(w.log, data);
      if w.client.Some? {
        GrowthIsHarmless(w.log, grown, w.client.value, []);
        forall i | 0 <= i < |w.responses| ensures Genuine(grown, w.responses[i], w.client.value.next) {
          GrowthIsHarmless(w.log, grown, w.client.value, w.responses[i]);
        }
      }
    case Attach =>
      AttachedInStep(w);
      forall i | 0 <= i < |w.responses| ensures Genuine(w.log, w.responses[i], w.log.sequence + 1) {
        LaterIsGenuine(w.log, w.responses[i], w.client.value.next, w.log.sequence + 1, w.client.value);
      }
    case Ask(limit) =>
      NextIsNear(w.log, w.client.value);
      ResponseIsGenuine(w.log, w.client.value.next, limit);
    case Deliver(response) =>
      var r := Received(w.client.value, w.responses[response]);
      ReceiveKeepsStep(w.log, w.client.value, w.responses[response]);
      forall i | 0 <= i < |w.responses| ensures Genuine(w.log, w.responses[i], r.next) {
        LaterIsGenuine(w.log, w.responses[i], w.client.value.next, r.next, w.client.value);
      }
  }

  lemma AttachedInStep(w: World)
    requires Sound(w.log) && Bytes(w.log.outputs) == w.fed
    ensures InStep(w.log, Client(w.fed, w.log.sequence + 1, ""))
  {
    assert w.log.outputs[..w.log.sequence] == w.log.outputs;
    assert w.fed + "" == w.fed;
  }

  lemma NextIsNear(log: Log, client: Client)
    requires Sound(log) && InStep(log, client)
    ensures 1 <= client.next <= log.sequence + 1
  {
  }

  lemma LaterIsGenuine(log: Log, outputs: seq<Output>, next: nat, later: nat, client: Client)
    requires Sound(log) && Genuine(log, outputs, next) && InStep(log, client) && client.next == next
    requires next <= later || later == log.sequence + 1
    ensures Genuine(log, outputs, later)
  {
  }

  lemma {:induction false} RunKeepsInv(w: World, steps: seq<Step>)
    requires Inv(w) && Valid(w, steps)
    ensures Inv(Run(w, steps))
    decreases |steps|
  {
    hide Inv;
    if steps != [] {
      StepKeepsInv(w, steps[0]);
      RunKeepsInv(Apply(w, steps[0]), steps[1..]);
    }
  }

  // In every run a client has exactly the bytes the shadow had consumed when its seed was
  // built, followed by the bytes of the chunks before the one it wants next: none lost,
  // none twice, in order. When it has caught up, its screen is the shadow's.
  lemma ExactlyOnce(steps: seq<Step>)
    requires Valid(Start(), steps)
    ensures var w := Run(Start(), steps);
            w.client.Some? ==>
              var c := w.client.value;
              && 1 <= c.next <= |w.log.outputs| + 1 && c.seed + c.written <= w.fed
              && c.seed + c.written == Bytes(w.log.outputs[..c.next - 1])
              && (c.seed + c.written == w.fed <==> c.next == w.log.sequence + 1)
  {
    RunKeepsInv(Start(), steps);
    var w := Run(Start(), steps);
    if w.client.Some? {
      var c := w.client.value;
      BytesSplit(w.log.outputs, c.next - 1);
      var rest := w.log.outputs[c.next - 1..];
      if rest == [] {
        assert w.log.outputs[..c.next - 1] == w.log.outputs;
      } else {
        assert Bytes(rest) == Bytes(rest[..|rest| - 1]) + rest[|rest| - 1].data;
        assert |Bytes(rest)| > 0;
      }
    }
  }

  // In the midst of any run an attaching client is given what the shadow has consumed and,
  // of what comes then, asks for exactly that.
  lemma AttachesAndFollows(steps: seq<Step>, data: string)
    requires Valid(Start(), steps) && data != ""
    ensures var w := Run(Start(), steps); var more := [Attach, Pump(data), Ask(0), Deliver(|w.responses|)];
            && Valid(w, more)
            && var t := Run(w, more);
            && t.fed == w.fed + data && t.client.Some?
            && t.client.value.seed == w.fed && t.client.value.written == data && t.client.value.next == t.log.sequence + 1
  {
    RunKeepsInv(Start(), steps);
    hide Inv, Appended, Response, Received;
    Followed(Run(Start(), steps), data);
  }

  lemma Followed(w: World, data: string)
    requires Inv(w) && data != ""
    ensures var more := [Attach, Pump(data), Ask(0), Deliver(|w.responses|)];
            && Valid(w, more)
            && var t := Run(w, more);
            && t.fed == w.fed + data && t.client.Some?
            && t.client.value.seed == w.fed && t.client.value.written == data && t.client.value.next == t.log.sequence + 1
  {
    var pumped := AttachedAndPumped(w, data);
    hide Inv, Appended, Response, Received, Valid, Run;
    var asked, d := Apply(pumped, Ask(0)), |w.responses|;
    assert asked.responses[d] == Response(pumped.log, w.log.sequence + 1, 0);
    Follows(w.fed, w.log, pumped.log, data, pumped);
    FourSteps(w, Attach, Pump(data), Ask(0), Deliver(d));
  }

  lemma AttachedAndPumped(w: World, data: string) returns (pumped: World)
    requires Inv(w) && data != ""
    ensures pumped == Apply(Apply(w, Attach), Pump(data)) && Inv(pumped)
    ensures pumped.fed == w.fed + data && pumped.client == Some(Client(w.fed, w.log.sequence + 1, ""))
    ensures pumped.responses == w.responses && w.log.sequence < pumped.log.sequence
  {
    var attached := Apply(w, Attach);
    pumped := Apply(attached, Pump(data));
    StepKeepsInv(w, Attach);
    StepKeepsInv(attached, Pump(data));
    AppendKeeps(w.log, data);
    hide Appended, Genuine, Bytes, InStep;
  }

  lemma Follows(fed: string, log: Log, grown: Log, data: string, pumped: World)
    requires Inv(pumped) && pumped.log == grown && pumped.fed == fed + data && log.sequence < grown.sequence
    requires pumped.client == Some(Client(fed, log.sequence + 1, ""))
    ensures var c := Received(pumped.client.value, Response(grown, log.sequence + 1, 0));
            c == Client(fed, grown.sequence + 1, data)
  {
    hide Response, Received, Sound, Bytes;
    var c := pumped.client.value;
    NumberedByPlace(grown);
    UnboundedResponse(grown, c.next);
    ResponseIsGenuine(grown, c.next, 0);
    ReceiveKeepsStep(grown, c, Response(grown, c.next, 0));
    NumberedLast(grown, c.next);
    var r := Received(c, Response(grown, c.next, 0));
    CaughtUp(grown, r);
    assert fed + r.written == fed + data;
    assert r.written == (fed + r.written)[|fed|..] == (fed + data)[|fed|..] == data;
  }

  lemma NumberedLast(log: Log, from: nat)
    requires Sound(log) && 1 <= from <= log.sequence
    ensures log.outputs[from - 1..] != [] && log.outputs[from - 1..][log.sequence - from].sequence == log.sequence
  {
  }

  lemma FourSteps(w: World, a: Step, b: Step, c: Step, d: Step)
    requires Enabled(w, a) && Enabled(Apply(w, a), b)
    requires var x := Apply(Apply(w, a), b); Enabled(x, c) && Enabled(Apply(x, c), d)
    ensures Valid(w, [a, b, c, d]) && Run(w, [a, b, c, d]) == Apply(Apply(Apply(Apply(w, a), b), c), d)
  {
    hide Apply, Enabled;
    var x := Apply(Apply(w, a), b);
    Then(Apply(x, c), d, []);
    Then(x, c, [d]);
    Then(Apply(w, a), b, [c, d]);
    Then(w, a, [b, c, d]);
  }

  lemma Then(w: World, step: Step, rest: seq<Step>)
    requires Enabled(w, step)
    ensures Valid(Apply(w, step), []) && Run(Apply(w, step), []) == Apply(w, step)
    ensures Valid(Apply(w, step), rest) ==>
              Valid(w, [step] + rest) && Run(w, [step] + rest) == Run(Apply(w, step), rest)
    ensures [step] + [] == [step]
  {
    assert ([step] + rest)[1..] == rest;
  }

  // A poll with chunks available moves the client whatever its limit, and its answer
  // keeps a limit that holds a chunk.
  lemma PollAdvances(w: World, limit: nat)
    requires Inv(w) && w.client.Some? && w.client.value.next <= w.log.sequence
    ensures var response := Response(w.log, w.client.value.next, limit);
            var r := Received(w.client.value, response);
            w.client.value.next < r.next <= w.log.sequence + 1 && (limit >= MAX_CHUNK_BYTES ==> |Bytes(response)| <= limit)
  {
    hide Response, Received, Bytes, Taken, From;
    var c, r := w.client.value, Response(w.log, w.client.value.next, limit);
    if limit > 0 { ResponseIsLongest(w.log, c.next, limit); } else { UnboundedResponse(w.log, c.next); }
    ResponseIsGenuine(w.log, c.next, limit);
    ReceiveKeepsStep(w.log, c, r);
    assert r[|r| - 1] == w.log.outputs[c.next - 2 + |r|];
  }

  // Polls one after another while nothing new arrives.
  function Polled(log: Log, client: Client, limit: nat, polls: nat): Client
    decreases polls
  {
    if polls == 0 then client
    else Polled(log, Received(client, Response(log, client.next, limit)), limit, polls - 1)
  }

  // A quiet pane is caught up with after at most one poll per outstanding chunk.
  lemma {:induction false} PollsDrain(w: World, limit: nat, polls: nat)
    requires Inv(w) && w.client.Some?
    requires polls >= w.log.sequence + 1 - w.client.value.next
    ensures var c := Polled(w.log, w.client.value, limit, polls);
            c.next == w.log.sequence + 1 && c.seed == w.client.value.seed && c.seed + c.written == w.fed
    decreases polls
  {
    hide Sound, Response, Received;
    var c := w.client.value;
    NextIsNear(w.log, c);
    if polls == 0 {
      CaughtUp(w.log, c);
    } else {
      var response := Response(w.log, c.next, limit);
      ResponseIsGenuine(w.log, c.next, limit);
      ReceiveKeepsStep(w.log, c, response);
      if c.next <= w.log.sequence { PollAdvances(w, limit); } else { ResponseIsEmpty(w.log, c.next, limit); }
      PollsDrain(w.(client := Some(Received(c, response)), responses := []), limit, polls - 1);
    }
  }

  lemma CaughtUp(log: Log, client: Client)
    requires Sound(log) && InStep(log, client) && client.next == log.sequence + 1
    ensures client.seed + client.written == Bytes(log.outputs)
  {
    assert log.outputs[..log.sequence] == log.outputs;
  }

  // ---- The objects -------------------------------------------------------

  class Stream {
    var sequence: nat
    var outputs: seq<Output>

    ghost function State(): Log
      reads this
    {
      Log(sequence, outputs)
    }

    constructor ()
      ensures State() == Start().log
    {
      sequence, outputs := 0, [];
    }

    method Append(data: string) returns (appended: seq<Output>)
      modifies this
      ensures State() == Appended(old(State()), data)
      ensures outputs == old(outputs) + appended
    {
      appended := [];
      var rest := data;
      while rest != ""
        invariant Appended(State(), rest) == Appended(old(State()), data)
        invariant outputs == old(outputs) + appended
        decreases |rest|
      {
        var size := if |rest| < MAX_CHUNK_BYTES then |rest| else MAX_CHUNK_BYTES;
        sequence := sequence + 1;
        var output := Output(sequence, rest[..size]);
        outputs := outputs + [output];
        appended := appended + [output];
        rest := rest[size..];
      }
    }

    method OutputsFromBounded(from: nat, maximumBytes: nat) returns (r: seq<Output>)
      ensures r == Response(State(), from, maximumBytes)
    {
      hide Taken, From;
      var start := FirstFrom(from);
      r := [];
      var bytes: nat, i := 0, start;
      ghost var all := Taken(outputs[start..], maximumBytes, 0, false);
      while i < |outputs| && (maximumBytes == 0 || i == start || bytes + |outputs[i].data| <= maximumBytes)
        invariant start <= i <= |outputs|
        invariant r == outputs[start..i] && i - start + Taken(outputs[i..], maximumBytes, bytes, i > start) == all
      {
        TakenStep(outputs, i, maximumBytes, bytes, i > start);
        r := r + [outputs[i]];
        bytes := bytes + |outputs[i].data|;
        i := i + 1;
      }
      TakenStep(outputs, i, maximumBytes, bytes, i > start);
      SliceTwice(outputs, start, all);
    }

    method FirstFrom(from: nat) returns (start: nat)
      ensures start <= |outputs| && From(outputs, from) == outputs[start..]
    {
      start := 0;
      FromStep(outputs, 0, from);
      while start < |outputs| && outputs[start].sequence < from
        invariant start <= |outputs|
        invariant From(outputs[start..], from) == From(outputs, from)
      {
        FromStep(outputs, start, from);
        start := start + 1;
      }
    }
  }

  // Pump and Attach as the critical sections they are. `shadow` is what the authoritative
  // terminal has consumed; a seed built from it restores it.
  class Pipeline {
    var shadow: string
    const stream: Stream

    constructor ()
      ensures fresh(stream) && shadow == Start().fed && stream.State() == Start().log
    {
      shadow := "";
      stream := new Stream();
    }

    method Pump(data: string)
      requires data != ""
      modifies this, stream
      ensures var w := Apply(World(old(shadow), old(stream.State()), None, []), Step.Pump(data));
              shadow == w.fed && stream.State() == w.log
    {
      shadow := shadow + data;
      var _ := stream.Append(data);
    }

    method Attach() returns (client: Client)
      ensures Apply(World(shadow, stream.State(), None, []), Step.Attach).client == Some(client)
    {
      client := Client(shadow, stream.sequence + 1, "");
    }
  }

  class Relay {
    const seed: string
    var nextSequence: nat
    var written: string

    ghost function State(): Client
      reads this
    {
      Client(seed, nextSequence, written)
    }

    constructor (attached: Client)
      ensures State() == attached
    {
      seed, nextSequence, written := attached.seed, attached.next, attached.written;
    }

    // The polling branch of relayAttachedSession's loop.
    method Receive(outputs: seq<Output>)
      modifies this
      ensures State() == Received(old(State()), outputs)
    {
      var i := 0;
      while i < |outputs|
        invariant i <= |outputs|
        invariant Received(State(), outputs[i..]) == Received(old(State()), outputs)
      {
        assert outputs[i..][1..] == outputs[i + 1..];
        if outputs[i].sequence >= nextSequence {
          nextSequence := outputs[i].sequence + 1;
          written := written + outputs[i].data;
        }
        i := i + 1;
      }
    }
  }
}
