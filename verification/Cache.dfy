/**
 The daemon's cache of parsed files. An entry is used only when the fingerprint of the current content
 matches; requests look, parse and store in separate steps, so any number of them interleave.
 */
module Cache {
  import opened Options
  import opened Skeleton

  // ----- the content fingerprint

  type Byte = x: int | 0 <= x < 256

  const OFFSET: nat := 0xcbf2_9ce4_8422_2325
  const PRIME: nat := 0x0000_0100_0000_01b3
  const WORD: nat := 0x1_0000_0000_0000_0000

  /** The exclusive or of the lowest bits. */
  function Xor(a: nat, b: nat, bits: nat): nat {
    if bits == 0 then 0 else (if a % 2 == b % 2 then 0 else 1) + 2 * Xor(a / 2, b / 2, bits - 1)
  }

  /** One round: the byte goes into the lowest eight bits, and the product wraps around the 64-bit word. */
  function Mix(hash: nat, byte: Byte): nat {
    (hash - hash % 256 + Xor(hash % 256, byte, 8)) * PRIME % WORD
  }

  function Fnv1a(bytes: seq<Byte>): nat {
    if bytes == [] then OFFSET else Mix(Fnv1a(bytes[..|bytes| - 1]), bytes[|bytes| - 1])
  }

  /** Two to the power. */
  ghost function Power(bits: nat): (p: nat)
    ensures p > 0
  {
    if bits == 0 then 1 else 2 * Power(bits - 1)
  }

  /** Bit `i` of the exclusive or is set exactly when one of the two has it set, and there is none above the lowest. */
  lemma {:induction false} XorIsBitwise(a: nat, b: nat, bits: nat, i: nat)
    requires i < bits
    ensures Xor(a, b, bits) < Power(bits)
    ensures (Xor(a, b, bits) / Power(i)) % 2 == 1 <==> (a / Power(i)) % 2 != (b / Power(i)) % 2
  {
    var rest := Xor(a / 2, b / 2, bits - 1);
    if bits > 1 {
      XorIsBitwise(a / 2, b / 2, bits - 1, if i > 0 then i - 1 else 0);
    }
    if i > 0 {
      HalvesTogether(a, Power(i - 1));
      HalvesTogether(b, Power(i - 1));
      HalvesTogether(Xor(a, b, bits), Power(i - 1));
      assert Xor(a, b, bits) / 2 == rest;
    }
  }

  lemma HalvesTogether(n: nat, p: nat)
    requires p > 0
    ensures n / (2 * p) == n / 2 / p
  {
    var q, r := n / 2 / p, n / 2 % p;
    assert n / 2 == q * p + r;
    assert n == 2 * (q * p + r) + n % 2;
    assert n == q * (2 * p) + (2 * r + n % 2) && 0 <= 2 * r + n % 2 < 2 * p;
    QuotientUnique(n, 2 * p, q, 2 * r + n % 2);
  }

  lemma MultipleGrows(e: int, d: nat)
    ensures e >= 1 ==> e * d >= d
    ensures e <= -1 ==> e * d + d <= 0
  {
    if e >= 1 {
      assert (e - 1) * d >= 0;
    } else if e <= -1 {
      assert (-1 - e) * d >= 0;
    }
  }

  lemma QuotientUnique(n: nat, d: nat, q: nat, r: nat)
    requires d > 0 && r < d && n == q * d + r
    ensures n / d == q
  {
    assert n == (n / d) * d + n % d;
    assert (n / d - q) * d == r - n % d;
    MultipleGrows(n / d - q, d);
  }

  lemma MixIs(hash: nat, byte: Byte, low: nat, carry: nat, mixed: nat)
    requires Xor(hash % 256, byte, 8) == low && mixed < WORD
    requires (hash - hash % 256 + low) * PRIME == carry * WORD + mixed
    ensures Mix(hash, byte) == mixed
  {
    var n := (hash - hash % 256 + low) * PRIME;
    QuotientUnique(n, WORD, carry, mixed);
    assert n == (n / WORD) * WORD + n % WORD;
  }

  lemma FirstLowBits(a: nat, b: nat)
    requires a == 0x25 && b == 0x61
    ensures Xor(a, b, 8) == 0x44
  {
    assert Xor(2, 6, 4) == 4;
    assert Xor(18, 48, 7) == 34;
  }

  lemma SecondLowBits(a: nat, b: nat)
    requires a == 0x8c && b == 0x62
    ensures Xor(a, b, 8) == 0xee
  {
    assert Xor(8, 6, 4) == 14;
    assert Xor(70, 49, 7) == 119;
  }

  /** The published values for no byte, for `a` and for `ab`. */
  lemma PublishedValues(none: seq<Byte>, a: seq<Byte>, ab: seq<Byte>)
    requires none == [] && a == none + [0x61] && ab == a + [0x62]
    ensures Fnv1a(none) == 0xcbf2_9ce4_8422_2325
    ensures Fnv1a(a) == 0xaf63_dc4c_8601_ec8c
    ensures Fnv1a(ab) == 0x089c_4407_b545_986a
  {
    var first, second: nat := 0xcbf2_9ce4_8422_2325, 0xaf63_dc4c_8601_ec8c;
    assert ab[..1] == a && a[..0] == none;
    FirstLowBits(first % 256, a[0]);
    SecondLowBits(second % 256, ab[1]);
    MixIs(first, a[0], 0x44, 875948729822, second);
    MixIs(second, ab[1], 0xee, 753294658992, 0x089c_4407_b545_986a);
  }

  /** FNV-1a over the bytes of a file. */
  method Fingerprint(bytes: seq<Byte>) returns (hash: nat)
    ensures hash == Fnv1a(bytes) && hash < WORD
  {
    hash := OFFSET;
    for k := 0 to |bytes|
      invariant hash == Fnv1a(bytes[..k]) && hash < WORD
    {
      assert bytes[..k + 1][..k] == bytes[..k];
      hash := Mix(hash, bytes[k]);
    }
    assert bytes[..|bytes|] == bytes;
  }

  // ----- requests

  /** A file as it was read: where it is, relative to which root, and its content. */
  datatype Request = Request(root: string, file: string, source: seq<Byte>)

  datatype Result = Ok(skeleton: FileSkeleton) | Err(error: string)

  datatype CacheEntry = CacheEntry(fingerprint: nat, skeleton: FileSkeleton)

  /** The parser, a function of the request, and the fingerprint of a content. */
  datatype Setting = Setting(parse: Request -> Result, fingerprint: seq<Byte> -> nat)

  function LookUp(entries: map<string, CacheEntry>, file: string, fingerprint: nat): Option<FileSkeleton> {
    if file in entries && entries[file].fingerprint == fingerprint then Some(entries[file].skeleton) else None
  }

  /**
   Requests that share a file and a fingerprint must parse alike, unless the first fails. This is what the cache rests on:
   one root, and fingerprints that tell the contents of a file apart.
   */
  ghost predicate Faithful(s: Setting, requests: set<Request>) {
    forall x, y | x in requests && y in requests && SameKey(s, x, y) && s.parse(x).Ok? :: s.parse(y) == s.parse(x)
  }

  predicate SameKey(s: Setting, x: Request, y: Request) {
    x.file == y.file && s.fingerprint(x.source) == s.fingerprint(y.source)
  }

  /** One root, and a fingerprint that is injective on the contents seen for each file, are enough. */
  lemma InjectiveIsFaithful(s: Setting, requests: set<Request>, root: string)
    requires forall r | r in requests :: r.root == root
    requires forall x, y | x in requests && y in requests && SameKey(s, x, y) :: x.source == y.source
    ensures Faithful(s, requests)
  {
    forall x, y | x in requests && y in requests && SameKey(s, x, y) && s.parse(x).Ok?
      ensures s.parse(y) == s.parse(x)
    {
      assert x == y;
    }
  }

  /** Every entry is the successful parse of some request for its file. */
  ghost predicate Sound(s: Setting, requests: set<Request>, entries: map<string, CacheEntry>) {
    forall file | file in entries ::
      exists r :: r in requests && r.file == file && s.fingerprint(r.source) == entries[file].fingerprint
                  && s.parse(r) == Ok(entries[file].skeleton)
  }

  lemma HitIsFresh(s: Setting, requests: set<Request>, entries: map<string, CacheEntry>, request: Request)
    requires Sound(s, requests, entries) && Faithful(s, requests) && request in requests
    ensures var hit := LookUp(entries, request.file, s.fingerprint(request.source));
            hit.Some? ==> s.parse(request) == Ok(hit.value)
  {
    if LookUp(entries, request.file, s.fingerprint(request.source)).Some? {
      var r :| r in requests && r.file == request.file && s.fingerprint(r.source) == entries[request.file].fingerprint
               && s.parse(r) == Ok(entries[request.file].skeleton);
      assert SameKey(s, r, request);
    }
  }

  lemma StoreKeepsSound(s: Setting, requests: set<Request>, entries: map<string, CacheEntry>, request: Request,
                        skeleton: FileSkeleton)
    requires Sound(s, requests, entries) && request in requests && s.parse(request) == Ok(skeleton)
    ensures Sound(s, requests, entries[request.file := CacheEntry(s.fingerprint(request.source), skeleton)])
  {
    var after := entries[request.file := CacheEntry(s.fingerprint(request.source), skeleton)];
    forall file | file in after
      ensures exists r :: r in requests && r.file == file && s.fingerprint(r.source) == after[file].fingerprint
                          && s.parse(r) == Ok(after[file].skeleton)
    {
      if file != request.file {
        assert after[file] == entries[file];
      }
    }
  }

  // ----- the cache as one caller sees it

  class SkeletonCache {
    var entries: map<string, CacheEntry>

    constructor ()
      ensures entries == map[]
    {
      entries := map[];
    }

    method Hit(file: string, fingerprint: nat) returns (skeleton: Option<FileSkeleton>)
      ensures skeleton == LookUp(entries, file, fingerprint)
    {
      if file in entries {
        var entry := entries[file];
        if entry.fingerprint == fingerprint {
          return Some(entry.skeleton);
        }
      }
      skeleton := None;
    }

    method Store(file: string, fingerprint: nat, skeleton: FileSkeleton)
      modifies this
      ensures entries == old(entries)[file := CacheEntry(fingerprint, skeleton)]
    {
      entries := entries[file := CacheEntry(fingerprint, skeleton)];
    }

    /**
     Answers as a fresh parse would, parsing only when the cache does not know the content. A failure is answered but not
     remembered, and a success is known from then on.
     */
    method Resolve(s: Setting, request: Request, ghost requests: set<Request>) returns (answer: Result,
                   ghost parsed: bool)
      requires Sound(s, requests, entries) && request in requests && Faithful(s, requests)
      modifies this
      ensures answer == s.parse(request)
      ensures Sound(s, requests, entries)
      ensures parsed <==> LookUp(old(entries), request.file, s.fingerprint(request.source)).None?
      ensures answer.Ok? ==> LookUp(entries, request.file, s.fingerprint(request.source)) == Some(answer.skeleton)
      ensures entries == if parsed && answer.Ok?
                         then old(entries)[request.file := CacheEntry(s.fingerprint(request.source), answer.skeleton)]
                         else old(entries)
    {
      parsed := false;
      var fingerprint := s.fingerprint(request.source);
      HitIsFresh(s, requests, entries, request);
      var hit := Hit(request.file, fingerprint);
      if hit.Some? {
        return Ok(hit.value), false;
      }
      answer, parsed := s.parse(request), true;
      if answer.Ok? {
        StoreKeepsSound(s, requests, entries, request, answer.skeleton);
        Store(request.file, fingerprint, answer.skeleton);
      }
    }
  }

  // ----- the cache shared by many

  /** How far a worker is with its request. */
  datatype Worker =
    | Idle
    | Looking(request: Request)
    | Parsing(request: Request)
    | Storing(request: Request, skeleton: FileSkeleton)
    | Answered(request: Request, answer: Result)

  datatype State = State(entries: map<string, CacheEntry>, workers: map<nat, Worker>)

  /** A worker takes up a request, for whatever content the file has by then, or takes its next step. */
  datatype Event = Ask(worker: nat, request: Request) | Advance(worker: nat)

  function WorkerOf(state: State, worker: nat): Worker {
    if worker in state.workers then state.workers[worker] else Idle
  }

  function Now(state: State, worker: nat, w: Worker): State {
    state.(workers := state.workers[worker := w])
  }

  /** One step: looking and storing each hold the lock, parsing does not. */
  function Step(s: Setting, state: State, event: Event): State {
    match event
    case Ask(worker, request) =>
      if WorkerOf(state, worker).Idle? || WorkerOf(state, worker).Answered? then Now(state, worker, Looking(request)) else state
    case Advance(worker) =>
      match WorkerOf(state, worker)
      case Idle => state
      case Looking(request) =>
        (match LookUp(state.entries, request.file, s.fingerprint(request.source))
         case Some(skeleton) => Now(state, worker, Answered(request, Ok(skeleton)))
         case None => Now(state, worker, Parsing(request)))
      case Parsing(request) =>
        (match s.parse(request)
         case Ok(skeleton) => Now(state, worker, Storing(request, skeleton))
         case Err(error) => Now(state, worker, Answered(request, Err(error))))
      case Storing(request, skeleton) =>
        Now(state.(entries := state.entries[request.file := CacheEntry(s.fingerprint(request.source), skeleton)]),
            worker, Answered(request, Ok(skeleton)))
      case Answered(_, _) => state
  }

  const FRESH_START := State(map[], map[])

  function Run(s: Setting, events: seq<Event>): State {
    if events == [] then FRESH_START else Step(s, Run(s, events[..|events| - 1]), events[|events| - 1])
  }

  ghost function Requested(events: seq<Event>): set<Request> {
    set event | event in events && event.Ask? :: event.request
  }

  /** What holds of a worker whatever the others do. */
  ghost predicate WorkerIsSound(s: Setting, requests: set<Request>, w: Worker) {
    match w
    case Idle => true
    case Looking(request) => request in requests
    case Parsing(request) => request in requests
    case Storing(request, skeleton) => request in requests && s.parse(request) == Ok(skeleton)
    case Answered(request, answer) => request in requests && answer == s.parse(request)
  }

  ghost predicate Invariant(s: Setting, requests: set<Request>, state: State) {
    Sound(s, requests, state.entries) && forall worker: nat :: WorkerIsSound(s, requests, WorkerOf(state, worker))
  }

  lemma StepKeepsInvariant(s: Setting, requests: set<Request>, state: State, event: Event)
    requires Invariant(s, requests, state) && Faithful(s, requests) && (event.Ask? ==> event.request in requests)
    ensures Invariant(s, requests, Step(s, state, event))
  {
    var after := Step(s, state, event);
    var own := WorkerOf(state, event.worker);
    assert WorkerIsSound(s, requests, own);
    if event.Advance? {
      match own
      case Looking(request) =>
        HitIsFresh(s, requests, state.entries, request);
      case Storing(request, skeleton) =>
        StoreKeepsSound(s, requests, state.entries, request, skeleton);
      case _ =>
    }
    forall worker: nat
      ensures WorkerIsSound(s, requests, WorkerOf(after, worker))
    {
      assert WorkerIsSound(s, requests, WorkerOf(state, worker));
      assert worker != event.worker ==> WorkerOf(after, worker) == WorkerOf(state, worker);
    }
  }

  lemma {:induction false} RunKeepsInvariant(s: Setting, requests: set<Request>, events: seq<Event>)
    requires Faithful(s, requests) && Requested(events) <= requests
    ensures Invariant(s, requests, Run(s, events))
  {
    if events != [] {
      var n := |events| - 1;
      assert forall e | e in events[..n] :: e in events;
      assert events[n] in events;
      RunKeepsInvariant(s, requests, events[..n]);
      StepKeepsInvariant(s, requests, Run(s, events[..n]), events[n]);
    }
  }

  /** Every answer given is what a fresh parse of the same content gives. */
  ghost predicate AnswersAreFresh(s: Setting, state: State) {
    forall worker: nat | WorkerOf(state, worker).Answered? ::
      WorkerOf(state, worker).answer == s.parse(WorkerOf(state, worker).request)
  }

  /** However requests and edits interleave, the cache answers as fresh parsing does. */
  lemma EveryAnswerIsFresh(s: Setting, requests: set<Request>, events: seq<Event>)
    requires Faithful(s, requests) && Requested(events) <= requests
    ensures AnswersAreFresh(s, Run(s, events))
  {
    RunKeepsInvariant(s, requests, events);
    forall worker: nat | WorkerOf(Run(s, events), worker).Answered?
      ensures WorkerOf(Run(s, events), worker).answer == s.parse(WorkerOf(Run(s, events), worker).request)
    {
      assert WorkerIsSound(s, requests, WorkerOf(Run(s, events), worker));
    }
  }

  /** Only successes are remembered, whatever the fingerprints. */
  ghost predicate OnlySuccessesStored(s: Setting, requests: set<Request>, state: State) {
    && Sound(s, requests, state.entries)
    && forall worker: nat ::
         match WorkerOf(state, worker)
         case Idle => true
         case Looking(request) => request in requests
         case Parsing(request) => request in requests
         case Storing(request, skeleton) => request in requests && s.parse(request) == Ok(skeleton)
         case Answered(_, _) => true
  }

  lemma StepStoresSuccesses(s: Setting, requests: set<Request>, state: State, event: Event)
    requires OnlySuccessesStored(s, requests, state) && (event.Ask? ==> event.request in requests)
    ensures OnlySuccessesStored(s, requests, Step(s, state, event))
  {
    var own := WorkerOf(state, event.worker);
    if event.Advance? && own.Storing? {
      StoreKeepsSound(s, requests, state.entries, own.request, own.skeleton);
    }
    var after := Step(s, state, event);
    assert forall worker: nat | worker != event.worker :: WorkerOf(after, worker) == WorkerOf(state, worker);
  }

  /** In every run, each entry is the successful parse of a content its file was requested with; failures are never stored. */
  lemma {:induction false} FailuresAreNeverStored(s: Setting, events: seq<Event>, requests: set<Request>)
    requires Requested(events) <= requests
    ensures OnlySuccessesStored(s, requests, Run(s, events))
  {
    if events != [] {
      var n := |events| - 1;
      assert forall e | e in events[..n] :: e in events;
      assert events[n] in events;
      FailuresAreNeverStored(s, events[..n], requests);
      StepStoresSuccesses(s, requests, Run(s, events[..n]), events[n]);
    }
  }

  // ----- without that, a stale answer

  lemma OneMoreEvent(s: Setting, events: seq<Event>, event: Event)
    ensures Run(s, events + [event]) == Step(s, Run(s, events), event)
  {
    assert (events + [event])[..|events|] == events;
  }

  lemma LookMisses(s: Setting, state: State, worker: nat, request: Request)
    requires WorkerOf(state, worker) == Looking(request)
    requires LookUp(state.entries, request.file, s.fingerprint(request.source)).None?
    ensures Step(s, state, Advance(worker)) == Now(state, worker, Parsing(request))
  {
  }

  lemma ParseSucceeds(s: Setting, state: State, worker: nat, request: Request)
    requires WorkerOf(state, worker) == Parsing(request) && s.parse(request).Ok?
    ensures Step(s, state, Advance(worker)) == Now(state, worker, Storing(request, s.parse(request).skeleton))
  {
  }

  /** After a miss, three steps bring the parse into the cache, whatever the others wait for. */
  lemma MissIsStored(s: Setting, start: State, worker: nat, request: Request) returns (end: State)
    requires WorkerOf(start, worker) == Looking(request) && s.parse(request).Ok?
    requires LookUp(start.entries, request.file, s.fingerprint(request.source)).None?
    ensures end == Step(s, Step(s, Step(s, start, Advance(worker)), Advance(worker)), Advance(worker))
    ensures LookUp(end.entries, request.file, s.fingerprint(request.source)) == Some(s.parse(request).skeleton)
    ensures forall other: nat | other != worker :: WorkerOf(end, other) == WorkerOf(start, other)
  {
    var a := Step(s, start, Advance(worker));
    LookMisses(s, start, worker, request);
    assert WorkerOf(a, worker) == Parsing(request);
    var b := Step(s, a, Advance(worker));
    ParseSucceeds(s, a, worker, request);
    assert WorkerOf(b, worker) == Storing(request, s.parse(request).skeleton);
    end := Step(s, b, Advance(worker));
  }

  /** Asking for what is in the cache is answered from it. */
  lemma HitIsAnswered(s: Setting, state: State, worker: nat, request: Request, skeleton: FileSkeleton)
    requires WorkerOf(state, worker) == Idle
    requires LookUp(state.entries, request.file, s.fingerprint(request.source)) == Some(skeleton)
    ensures WorkerOf(Step(s, Step(s, state, Ask(worker, request)), Advance(worker)), worker) == Answered(request, Ok(skeleton))
  {
    var asked := Step(s, state, Ask(worker, request));
    assert WorkerOf(asked, worker) == Looking(request) && asked.entries == state.entries;
  }

  lemma RunOfSix(s: Setting, x: Request, y: Request) returns (events: seq<Event>)
    ensures events == [Ask(0, x), Advance(0), Advance(0), Advance(0), Ask(1, y), Advance(1)]
    ensures var stored := Step(s, Step(s, Step(s, Step(s, FRESH_START, Ask(0, x)), Advance(0)), Advance(0)), Advance(0));
            Run(s, events) == Step(s, Step(s, stored, Ask(1, y)), Advance(1))
  {
    var a := [Ask(0, x)];
    var b := a + [Advance(0)];
    var c := b + [Advance(0)];
    var d := c + [Advance(0)];
    var e := d + [Ask(1, y)];
    events := e + [Advance(1)];
    assert [] + [Ask(0, x)] == a;
    OneMoreEvent(s, [], Ask(0, x));
    OneMoreEvent(s, a, Advance(0));
    OneMoreEvent(s, b, Advance(0));
    OneMoreEvent(s, c, Advance(0));
    OneMoreEvent(s, d, Ask(1, y));
    OneMoreEvent(s, e, Advance(1));
  }

  /** Requests that share file and fingerprint but parse differently: the second is answered with the first's parse. */
  lemma StaleAnswer(s: Setting, x: Request, y: Request) returns (events: seq<Event>)
    requires SameKey(s, x, y) && s.parse(x).Ok? && s.parse(y) != s.parse(x)
    ensures Requested(events) == {x, y}
    ensures !AnswersAreFresh(s, Run(s, events))
  {
    events := RunOfSix(s, x, y);
    var asked := Step(s, FRESH_START, Ask(0, x));
    assert WorkerOf(asked, 0) == Looking(x) && asked.entries == map[] && WorkerOf(asked, 1) == Idle;
    var stored := MissIsStored(s, asked, 0, x);
    HitIsAnswered(s, stored, 1, y, s.parse(x).skeleton);
    assert WorkerOf(Run(s, events), 1) == Answered(y, s.parse(x));
    assert events[0] in events && events[4] in events;
    assert events[0].request == x && events[4].request == y;
  }

  /** The cache agrees with fresh parsing in every run over some requests exactly when those are told apart faithfully. */
  lemma FreshExactlyWhenFaithful(s: Setting, requests: set<Request>)
    ensures Faithful(s, requests)
       <==> forall events | Requested(events) <= requests :: AnswersAreFresh(s, Run(s, events))
  {
    if Faithful(s, requests) {
      forall events | Requested(events) <= requests
        ensures AnswersAreFresh(s, Run(s, events))
      {
        EveryAnswerIsFresh(s, requests, events);
      }
    } else {
      var x, y :| x in requests && y in requests && SameKey(s, x, y) && s.parse(x).Ok? && s.parse(y) != s.parse(x);
      var events := StaleAnswer(s, x, y);
      assert Requested(events) <= requests;
    }
  }
}
