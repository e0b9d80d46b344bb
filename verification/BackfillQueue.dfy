/** The two-tier delayed queue of wallet backfill jobs (packages/db/backfill_queue.go).
    Redis lists are sequences: the left end is popped, the right end is pushed. */
module BackfillQueue {
  import opened Text

  const PRIORITY := "priority"
  const DEFAULT := "default"

  /** A metadata value after its JSON round trip: every number is a float64, taken here as an integer. */
  datatype MetaValue = Number(n: int) | Flag(b: bool) | Str(s: string) | Compound

  /** The metadata keys this model reads or writes; any other key by its name. */
  datatype Field =
    | SourceType | RetryCount | LastError | LastErrorAt | Retryable | RetryDelaySeconds
    | WindowDays | Limit | ExpansionDepth | StopServices
    | RootChain | RootAddress | ParentChain | ParentAddress | ExpansionHits
    | Other(name: string)

  type Metadata = map<Field, MetaValue>

  /** The chain text after trimming and lower-casing. */
  datatype Chain = Evm | Solana | Unsupported(text: string)

  datatype Job = Job(chain: Chain, address: string, source: string, requestedAt: Option<int>, metadata: Metadata)

  datatype JobError = UnsupportedChain | AddressRequired | SourceRequired | RequestedAtRequired | Undecodable

  /** What a list holds: the encoding of a job, or bytes that do not decode. */
  datatype Payload = Encoded(job: Job) | Corrupt

  function NormalizeJob(job: Job): Job {
    job.(address := Trim(job.address), source := Trim(job.source))
  }

  function Validate(job: Job): Option<JobError> {
    if job.chain.Unsupported? then Some(UnsupportedChain)
    else if Trim(job.address) == "" then Some(AddressRequired)
    else if Trim(job.source) == "" then Some(SourceRequired)
    else if job.requestedAt.None? then Some(RequestedAtRequired)
    else None
  }

  function SourceTypeOf(metadata: Metadata): string {
    if SourceType in metadata && metadata[SourceType].Str? then Trim(metadata[SourceType].s) else ""
  }

  /** The list a job belongs to: seed-list and search jobs are urgent. */
  function QueueNameForJob(job: Job): string {
    if Lower(SourceTypeOf(job.metadata)) == "seed_list" then PRIORITY
    else if "search_" <= Lower(Trim(job.source)) then PRIORITY
    else DEFAULT
  }

  /** A job is urgent when its source type is `seed_list`, in any case and with any blanks around it, or its
      source starts with `search_`; every other job waits in the default list. */
  lemma {:induction false} UrgentJobs(job: Job)
    ensures QueueNameForJob(job) == PRIORITY <==>
      || (SourceType in job.metadata && job.metadata[SourceType].Str? && EqualFold(Trim(job.metadata[SourceType].s), "seed_list"))
      || (|Trim(job.source)| >= |"search_"| && EqualFold(Trim(job.source)[..|"search_"|], "search_"))
    ensures QueueNameForJob(job) in {PRIORITY, DEFAULT}
  {
    SeedListFolds(SourceTypeOf(job.metadata));
    SearchFolds(Trim(job.source));
  }

  lemma {:induction false} SeedListFolds(text: string)
    ensures Lower(text) == "seed_list" <==> EqualFold(text, "seed_list")
  {
    LowerFolds(text, "seed_list");
    SeedListIsLower();
  }

  lemma SeedListIsLower()
    ensures Lower("seed_list") == "seed_list"
  {
    var word := "seed_list";
    assert forall i :: 0 <= i < |word| ==> LowerChar(word[i]) == word[i];
  }

  lemma SearchIsLower()
    ensures Lower("search_") == "search_"
  {
    var word := "search_";
    assert forall i :: 0 <= i < |word| ==> LowerChar(word[i]) == word[i];
  }

  lemma {:induction false} SearchFolds(text: string)
    ensures "search_" <= Lower(text) <==> |text| >= |"search_"| && EqualFold(text[..|"search_"|], "search_")
  {
    SearchIsLower();
    LowerPrefixFolds(text, "search_");
  }

  function QueueKey(queueName: string): string {
    var name := Lower(Trim(queueName));
    if name == "" then DEFAULT else name
  }

  /** The lists a reader of `queueName` looks at, in order. */
  function ReadOrder(queueName: string): seq<string> {
    if QueueKey(queueName) == DEFAULT then [PRIORITY, DEFAULT] else [QueueKey(queueName)]
  }

  /** Readers of the default queue, which an empty name means too, look at the priority list first; any other
      reader looks at its own list alone. */
  lemma {:induction false} PriorityIsReadFirst(queueName: string)
    ensures ReadOrder(queueName) ==
      if Trim(queueName) == "" || EqualFold(Trim(queueName), "default") then ["priority", "default"] else [Lower(Trim(queueName))]
  {
    assert Lower("default") == "default";
    LowerFolds(Trim(queueName), "default");
  }

  datatype Decoded = Good(job: Job) | Bad(error: JobError)

  /** Unmarshal, normalise, validate. */
  function Decode(p: Payload): (d: Decoded)
    ensures d.Good? ==> d.job.requestedAt.Some?
  {
    match p
    case Corrupt => Bad(Undecodable)
    case Encoded(raw) =>
      var job := NormalizeJob(raw);
      match Validate(job)
      case Some(error) => Bad(error)
      case None => Good(job)
  }

  datatype Outcome = Taken(job: Job) | Rejected(error: JobError) | NothingDue

  predicate Delayed(p: Payload, now: int) {
    var d := Decode(p);
    d.Good? && d.job.requestedAt.value > now
  }

  /** A payload is put off exactly when it holds a job that names a supported chain, an address and a source,
      and is due strictly later. */
  lemma {:induction false} DelayedIff(p: Payload, now: int)
    ensures Delayed(p, now) <==>
      && p.Encoded? && p.job.chain in {Evm, Solana} && Trim(p.job.address) != "" && Trim(p.job.source) != ""
      && p.job.requestedAt.Some? && now < p.job.requestedAt.value
  {
    if p.Encoded? {
      TrimIsTrimmed(p.job.address);
      TrimOfTrimmed(Trim(p.job.address));
      TrimIsTrimmed(p.job.source);
      TrimOfTrimmed(Trim(p.job.source));
    }
  }

  /** What popping a payload that is not delayed amounts to. */
  function Settle(p: Payload): Outcome {
    match Decode(p)
    case Bad(error) => Rejected(error)
    case Good(job) => Taken(job)
  }

  /** At most `budget` pops from the left of `q`; delayed jobs go to the right end. */
  function Scan(q: seq<Payload>, budget: nat, now: int): (r: (Outcome, seq<Payload>))
    ensures |r.1| == if r.0 == NothingDue then |q| else |q| - 1
    decreases budget
  {
    if budget == 0 || q == [] then (NothingDue, q)
    else if Delayed(q[0], now) then Scan(q[1..] + [q[0]], budget - 1, now)
    else (Settle(q[0]), q[1..])
  }

  /** Reading several lists in order, each once around: the first one that yields something ends the read. */
  function ReadLists(lists: seq<seq<Payload>>, now: int): (r: (Outcome, seq<seq<Payload>>))
    ensures |r.1| == |lists|
  {
    if lists == [] then (NothingDue, [])
    else
      var (outcome, rest) := Scan(lists[0], |lists[0]|, now);
      if outcome != NothingDue then (outcome, [rest] + lists[1..])
      else var (later, others) := ReadLists(lists[1..], now); (later, [rest] + others)
  }

  /** One pop of a scan. */
  lemma ScanStep(q: seq<Payload>, budget: nat, now: int)
    requires budget > 0 && q != []
    ensures Scan(q, budget, now) == if Delayed(q[0], now) then Scan(q[1..] + [q[0]], budget - 1, now) else (Settle(q[0]), q[1..])
  {
  }

  class RedisBackfillQueues {
    var lists: map<string, seq<Payload>>

    constructor ()
      ensures lists == map[]
    {
      lists := map[];
    }

    /** A missing key is an empty list. */
    function List(key: string): seq<Payload>
      reads this
    {
      if key in lists then lists[key] else []
    }

    function Named(keys: seq<string>): (r: seq<seq<Payload>>)
      reads this
      ensures |r| == |keys|
      ensures forall i :: 0 <= i < |keys| ==> r[i] == List(keys[i])
    {
      seq(|keys|, i requires 0 <= i < |keys| reads this => List(keys[i]))
    }

    method Enqueue(job: Job) returns (error: Option<JobError>)
      modifies this
      ensures error == Validate(NormalizeJob(job))
      ensures var key := QueueNameForJob(NormalizeJob(job)); forall name ::
        List(name) == if name == key && error.None? then old(List(name)) + [Encoded(NormalizeJob(job))] else old(List(name))
    {
      var normalized := NormalizeJob(job);
      error := Validate(normalized);
      if error.None? {
        PushRight(QueueNameForJob(normalized), Encoded(normalized));
      }
    }

    /** LPOP on a list that is not empty. */
    method PopLeft(key: string) returns (popped: Payload)
      requires List(key) != []
      modifies this
      ensures [popped] + List(key) == old(List(key))
      ensures forall name :: name != key ==> List(name) == old(List(name))
    {
      popped := List(key)[0];
      lists := lists[key := List(key)[1..]];
    }

    /** RPUSH. */
    method PushRight(key: string, p: Payload)
      modifies this
      ensures List(key) == old(List(key)) + [p]
      ensures forall name :: name != key ==> List(name) == old(List(name))
    {
      lists := lists[key := List(key) + [p]];
    }

    /** One pop: a payload that is delayed goes to the right end, any other one ends the read. */
    method PopOne(key: string, now: int) returns (outcome: Option<Outcome>)
      requires List(key) != []
      modifies this
      ensures outcome.None? <==> Delayed(old(List(key))[0], now)
      ensures outcome.None? ==> List(key) == old(List(key))[1..] + [old(List(key))[0]]
      ensures outcome.Some? ==> outcome.value == Settle(old(List(key))[0]) && List(key) == old(List(key))[1..]
      ensures forall name :: name != key ==> List(name) == old(List(name))
    {
      ghost var before := List(key);
      var popped := PopLeft(key);
      assert before[0] == popped && before[1..] == List(key);
      var decoded := Decode(popped);
      if decoded.Bad? {
        return Some(Rejected(decoded.error));
      }
      if decoded.job.requestedAt.value <= now {
        return Some(Taken(decoded.job));
      }
      PushRight(key, popped);
      outcome := None;
    }

    /** One list of a read: as many pops as the list was long when the scan began. */
    method ScanList(key: string, now: int) returns (outcome: Outcome, ghost pops: nat)
      modifies this
      ensures (outcome, List(key)) == Scan(old(List(key)), |old(List(key))|, now)
      ensures forall name :: name != key ==> List(name) == old(List(name))
      ensures pops <= |old(List(key))|
    {
      var depth := |List(key)|;
      pops := 0;
      for i := 0 to depth
        invariant Scan(List(key), depth - i, now) == Scan(old(List(key)), depth, now)
        invariant |List(key)| == depth && pops == i
        invariant forall name :: name != key ==> List(name) == old(List(name))
      {
        ScanStep(List(key), depth - i, now);
        var taken := PopOne(key, now);
        pops := pops + 1;
        if taken.Some? {
          return taken.value, pops;
        }
      }
      outcome := NothingDue;
    }

    method Dequeue(queueName: string, now: int) returns (outcome: Outcome)
      modifies this
      ensures var order := ReadOrder(queueName);
        (outcome, Named(order)) == ReadLists(old(Named(order)), now)
      ensures forall name :: name !in ReadOrder(queueName) ==> List(name) == old(List(name))
    {
      var order := ReadOrder(queueName);
      ghost var start := Named(order);
      ghost var pops;
      outcome, pops := ScanList(order[0], now);
      if outcome == NothingDue && |order| > 1 {
        assert start[1..] == [List(order[1])];
        outcome, pops := ScanList(order[1], now);
        assert ReadLists(start[1..], now) == (outcome, [List(order[1])]) by {
          ReadOneList(start[1], now);
        }
      } else if outcome == NothingDue {
        ReadOneList(start[0], now);
        assert start == [start[0]];
      }
      assert Named(order) == ReadLists(start, now).1;
    }
  }

  lemma ReadOneList(q: seq<Payload>, now: int)
    ensures ReadLists([q], now) == (Scan(q, |q|, now).0, [Scan(q, |q|, now).1])
  {
    var (outcome, rest) := Scan(q, |q|, now);
    assert [q][1..] == [];
    assert [rest] + [] == [rest];
  }
}
