/** Telemetry bridge records: decoding one, and checking a stream of them. */
module Bridge {
  import opened Collections

  // ---- text fields ----

  datatype Pattern = Identifier | InvocationId | EventType | Status | Sha256

  predicate Alnum(c: char)
  {
    ('A' <= c <= 'Z') || ('a' <= c <= 'z') || ('0' <= c <= '9')
  }

  predicate Hex(c: char)
  {
    ('0' <= c <= '9') || ('a' <= c <= 'f')
  }

  /** Characters allowed after the first. */
  predicate Inner(p: Pattern, c: char)
  {
    match p
    case Identifier => Alnum(c) || c == '.' || c == '_' || c == ':' || c == '/' || c == '-'
    case InvocationId => Alnum(c) || c == '.' || c == '_' || c == ':' || c == '-'
    case EventType => Alnum(c) || c == '_' || c == '.' || c == '/' || c == ':' || c == '-'
    case Status => Alnum(c) || c == '_' || c == '.' || c == ':' || c == '-'
    case Sha256 => Hex(c)
  }

  predicate Matches(p: Pattern, s: string)
  {
    && s != "" && Alnum(s[0])
    && (forall i | 0 <= i < |s| :: Inner(p, s[i]))
    && if p == Sha256 then |s| == 64 else |s| <= if p == Identifier then 256 else 128
  }

  predicate Space(c: char)
  {
    var n := c as int;
    || 9 <= n <= 13 || 28 <= n <= 32 || n == 0x85 || n == 0xA0 || n == 0x1680 || 0x2000 <= n <= 0x200A
    || n == 0x2028 || n == 0x2029 || n == 0x202F || n == 0x205F || n == 0x3000
  }

  function StripLeft(s: string): string
  {
    if s != "" && Space(s[0]) then StripLeft(s[1..]) else s
  }

  function StripRight(s: string): string
  {
    if s != "" && Space(s[|s| - 1]) then StripRight(s[..|s| - 1]) else s
  }

  function Strip(s: string): string
  {
    StripRight(StripLeft(s))
  }

  lemma MatchedIsStripped(p: Pattern, s: string)
    requires Matches(p, s)
    ensures Strip(s) == s
  {
    assert Inner(p, s[0]) && Inner(p, s[|s| - 1]);
  }

  predicate Blank(s: string)
  {
    forall i | 0 <= i < |s| :: Space(s[i])
  }

  lemma {:induction false} StripLeftExact(s: string) returns (a: string)
    ensures Blank(a) && s == a + StripLeft(s) && (StripLeft(s) != "" ==> !Space(StripLeft(s)[0]))
  {
    if s != "" && Space(s[0]) {
      var b := StripLeftExact(s[1..]);
      a := [s[0]] + b;
    } else {
      a := "";
    }
  }

  lemma {:induction false} StripRightExact(s: string) returns (b: string)
    ensures Blank(b) && s == StripRight(s) + b && (StripRight(s) != "" ==> !Space(StripRight(s)[|StripRight(s)| - 1]))
  {
    if s != "" && Space(s[|s| - 1]) {
      var a := StripRightExact(s[..|s| - 1]);
      b := a + [s[|s| - 1]];
    } else {
      b := "";
    }
  }

  /** Stripping takes away the blanks around a text and nothing else. */
  lemma StripExact(s: string) returns (a: string, b: string)
    ensures Blank(a) && Blank(b) && s == a + Strip(s) + b
    ensures Strip(s) != "" ==> !Space(Strip(s)[0]) && !Space(Strip(s)[|Strip(s)| - 1])
  {
    a := StripLeftExact(s);
    b := StripRightExact(StripLeft(s));
  }

  // ---- objects ----

  /** Field names: those of a record, a binding and a usage object, those that are
      forbidden anywhere, and all others. */
  datatype Key =
    | SchemaVersion | RecordType | BridgeSeq | Invocation | BindingOf | Session | SourceSeq | EventTypeOf | Turn | Step
    | UsageOf | StatusOf | ToolName | ToolNameSha256 | CompactionId | Durability
    | ClaimId | AttemptId | SemanticEpoch | LeaseFencingToken
    | Counter(i: nat) | Forbidden(i: nat) | Other(i: nat)

  datatype Json = Null | Bool(b: bool) | Num(n: int) | Str(s: string) | Arr(items: seq<Json>) | Obj(fields: map<Key, Json>)

  const SCHEMA: string := "lhos-dsh-phase-bridge.v1"
  const SESSION_EVENT: string := "session_event"
  const COUNTERS := 10

  const RECORD_KEYS: set<Key> :=
    {SchemaVersion, RecordType, BridgeSeq, Invocation, BindingOf, Session, SourceSeq, EventTypeOf, Turn, Step, UsageOf,
     StatusOf, ToolName, ToolNameSha256, CompactionId, Durability}
  const REQUIRED_KEYS: set<Key> := {SchemaVersion, RecordType, BridgeSeq, Invocation, BindingOf, Session}
  const NUMBER_KEYS: set<Key> := {SourceSeq, Turn, Step}
  const TEXT_KEYS: set<Key> := {EventTypeOf, StatusOf, ToolName, ToolNameSha256, CompactionId, Durability}
  const BINDING_KEYS: set<Key> := {ClaimId, AttemptId, SemanticEpoch, LeaseFencingToken}

  /** _reject_forbidden_keys: no forbidden name at any depth. */
  predicate NothingForbidden(j: Json)
  {
    match j
    case Arr(items) => forall i | 0 <= i < |items| :: NothingForbidden(items[i])
    case Obj(fields) => forall k | k in fields :: !k.Forbidden? && NothingForbidden(fields[k])
    case _ => true
  }

  /** One step down into a value. */
  datatype Hop = Item(i: nat) | Member(k: Key)

  function Follow(j: Json, path: seq<Hop>): Option<Json>
  {
    if path == [] then Some(j)
    else
      match path[0]
      case Item(i) => if j.Arr? && i < |j.items| then Follow(j.items[i], path[1..]) else None
      case Member(k) => if j.Obj? && k in j.fields then Follow(j.fields[k], path[1..]) else None
  }

  /** The path leads to a field with a forbidden name. */
  ghost predicate LeadsToForbidden(j: Json, path: seq<Hop>)
  {
    path != [] && path[|path| - 1].Member? && path[|path| - 1].k.Forbidden? && Follow(j, path).Some?
  }

  lemma ForbiddenBelow(j: Json, h: Hop, x: Json, path: seq<Hop>)
    requires Follow(j, [h]) == Some(x) && LeadsToForbidden(x, path)
    ensures LeadsToForbidden(j, [h] + path)
  {
    assert ([h] + path)[1..] == path && [h][1..] == [];
  }

  lemma {:induction false} FindForbidden(j: Json) returns (path: seq<Hop>)
    requires !NothingForbidden(j)
    ensures LeadsToForbidden(j, path)
  {
    match j
    case Arr(items) =>
      var i: nat :| i < |items| && !NothingForbidden(items[i]);
      var rest := FindForbidden(items[i]);
      path := [Item(i)] + rest;
      ForbiddenBelow(j, Item(i), items[i], rest);
    case Obj(fields) =>
      var k :| k in fields && !(!k.Forbidden? && NothingForbidden(fields[k]));
      if k.Forbidden? {
        path := [Member(k)];
        assert path[1..] == [];
      } else {
        var rest := FindForbidden(fields[k]);
        path := [Member(k)] + rest;
        ForbiddenBelow(j, Member(k), fields[k], rest);
      }
  }

  lemma {:induction false} ForbiddenIsFound(j: Json, path: seq<Hop>)
    requires LeadsToForbidden(j, path)
    ensures !NothingForbidden(j)
    decreases |path|
  {
    if |path| > 1 {
      var x := if path[0].Item? then j.items[path[0].i] else j.fields[path[0].k];
      assert path[1..][|path| - 2] == path[|path| - 1];
      ForbiddenIsFound(x, path[1..]);
    }
  }

  /** A value is refused exactly when a forbidden name is reached by some path, through
      objects and lists of any depth. */
  lemma ForbiddenExact(j: Json)
    ensures !NothingForbidden(j) <==> exists path :: LeadsToForbidden(j, path)
  {
    if !NothingForbidden(j) {
      var path := FindForbidden(j);
    }
    if path :| LeadsToForbidden(j, path) {
      ForbiddenIsFound(j, path);
    }
  }

  datatype Binding = Binding(claim: string, attempt: string, epoch: nat, token: Option<nat>)

  /** The optional numbers and texts are kept under their keys. */
  datatype Record = Record(kind: string, seqNo: nat, invocation: string, binding: Binding, session: string,
                           numbers: map<Key, nat>, usage: map<nat, nat>, texts: map<Key, string>)

  function PatternOf(k: Key): Pattern
  {
    match k
    case EventTypeOf => EventType
    case StatusOf => Status
    case Durability => Status
    case ToolNameSha256 => Sha256
    case _ => Identifier
  }

  predicate ValidBinding(b: Binding)
  {
    Matches(Identifier, b.claim) && Matches(Identifier, b.attempt)
  }

  predicate ValidHead(r: Record)
  {
    && Matches(Status, r.kind) && Matches(InvocationId, r.invocation) && ValidBinding(r.binding)
    && Matches(Identifier, r.session)
  }

  predicate ValidTexts(texts: map<Key, string>)
  {
    texts.Keys <= TEXT_KEYS && forall k | k in texts :: Matches(PatternOf(k), texts[k])
  }

  /** A tool is named or its name is hashed, not both; an event has a type and a source. */
  predicate Consistent(r: Record)
  {
    && !(ToolName in r.texts && ToolNameSha256 in r.texts)
    && (r.kind == SESSION_EVENT ==> EventTypeOf in r.texts && SourceSeq in r.numbers)
  }

  /** What __post_init__ leaves standing. */
  predicate Valid(r: Record)
  {
    && ValidHead(r) && r.numbers.Keys <= NUMBER_KEYS && (forall k | k in r.usage :: k < COUNTERS)
    && ValidTexts(r.texts) && Consistent(r)
  }

  // ---- reading ----

  function ReadString(p: Pattern, j: Json): (r: Option<string>)
    ensures r.Some? ==> Matches(p, r.value)
  {
    if j.Str? && Matches(p, Strip(j.s)) then Some(Strip(j.s)) else None
  }

  function ReadNat(j: Json): Option<nat>
  {
    if j.Num? && j.n >= 0 then Some(j.n) else None
  }

  /** A field that is missing reads as null. */
  function Field(fields: map<Key, Json>, k: Key): Json
  {
    if k in fields then fields[k] else Null
  }

  predicate ReadableNumber(j: Json)
  {
    j == Null || ReadNat(j).Some?
  }

  predicate AllNumbers(f: map<Key, Json>)
  {
    forall k | k in NUMBER_KEYS :: ReadableNumber(Field(f, k))
  }

  function Numbers(f: map<Key, Json>): (m: map<Key, nat>)
    requires AllNumbers(f)
    ensures m.Keys <= NUMBER_KEYS
  {
    map k | k in NUMBER_KEYS && Field(f, k) != Null :: ReadNat(Field(f, k)).value
  }

  function ReadNumbers(f: map<Key, Json>): (r: Option<map<Key, nat>>)
    ensures r.Some? ==> r.value.Keys <= NUMBER_KEYS
  {
    if AllNumbers(f) then Some(Numbers(f)) else None
  }

  predicate ReadableText(k: Key, j: Json)
  {
    j == Null || ReadString(PatternOf(k), j).Some?
  }

  predicate AllTexts(f: map<Key, Json>)
  {
    forall k | k in TEXT_KEYS :: ReadableText(k, Field(f, k))
  }

  function Texts(f: map<Key, Json>): (m: map<Key, string>)
    requires AllTexts(f)
    ensures ValidTexts(m)
  {
    map k | k in TEXT_KEYS && Field(f, k) != Null :: ReadString(PatternOf(k), Field(f, k)).value
  }

  function ReadTexts(f: map<Key, Json>): (r: Option<map<Key, string>>)
    ensures r.Some? ==> ValidTexts(r.value)
  {
    if AllTexts(f) then Some(Texts(f)) else None
  }

  predicate ReadableCounter(k: Key, j: Json)
  {
    k.Counter? && k.i < COUNTERS && j.Num? && j.n >= 0
  }

  predicate AllCounters(f: map<Key, Json>)
  {
    forall k | k in f :: ReadableCounter(k, f[k])
  }

  function Counters(f: map<Key, Json>): (m: map<nat, nat>)
    requires AllCounters(f)
    ensures forall i: nat :: i in m <==> i < COUNTERS && Counter(i) in f
    ensures forall i: nat | i in m :: f[Counter(i)] == Num(m[i])
  {
    map i: nat | i < COUNTERS && Counter(i) in f :: f[Counter(i)].n
  }

  /** What Python takes for false. */
  predicate Falsy(j: Json)
  {
    match j
    case Null => true
    case Bool(b) => !b
    case Num(n) => n == 0
    case Str(s) => s == []
    case Arr(items) => items == []
    case Obj(fields) => fields == map[]
  }

  /** A missing usage, and any value that is false, counts as an empty one. */
  function ReadUsage(j: Json): (u: Option<map<nat, nat>>)
    ensures u.Some? ==> forall k | k in u.value :: k < COUNTERS
  {
    if Falsy(j) then Some(map[])
    else if j.Obj? && AllCounters(j.fields) then Some(Counters(j.fields))
    else None
  }

  /** The lease token may be null. */
  function ReadBinding(j: Json): (b: Option<Binding>)
    ensures b.Some? ==> ValidBinding(b.value)
  {
    if !j.Obj? || j.fields.Keys != BINDING_KEYS then None
    else
      var claim, attempt := ReadString(Identifier, j.fields[ClaimId]), ReadString(Identifier, j.fields[AttemptId]);
      var epoch, token := ReadNat(j.fields[SemanticEpoch]), j.fields[LeaseFencingToken];
      if claim == None || attempt == None || epoch == None || !ReadableNumber(token) then None
      else Some(Binding(claim.value, attempt.value, epoch.value, if token == Null then None else ReadNat(token)))
  }

  predicate Framed(j: Json)
  {
    && j.Obj? && NothingForbidden(j) && REQUIRED_KEYS <= j.fields.Keys <= RECORD_KEYS
    && Field(j.fields, SchemaVersion) == Str(SCHEMA)
  }

  /** The parts of a record, each read or not. */
  function Assemble(kind: Option<string>, seqNo: Option<nat>, invocation: Option<string>, binding: Option<Binding>,
                    session: Option<string>, numbers: Option<map<Key, nat>>, usage: Option<map<nat, nat>>,
                    texts: Option<map<Key, string>>): Option<Record>
  {
    if kind == None || seqNo == None || invocation == None || binding == None || session == None || numbers == None
       || usage == None || texts == None
    then None
    else
      var r := Record(kind.value, seqNo.value, invocation.value, binding.value, session.value, numbers.value, usage.value,
                      texts.value);
      if Consistent(r) then Some(r) else None
  }

  /** BridgeRecord.from_mapping. */
  function FromMapping(j: Json): (r: Option<Record>)
    ensures r.Some? ==> Valid(r.value)
  {
    if !Framed(j) then None
    else
      var f := j.fields;
      Assemble(ReadString(Status, Field(f, RecordType)), ReadNat(Field(f, BridgeSeq)),
               ReadString(InvocationId, Field(f, Invocation)), ReadBinding(Field(f, BindingOf)),
               ReadString(Identifier, Field(f, Session)), ReadNumbers(f), ReadUsage(Field(f, UsageOf)), ReadTexts(f))
  }

  // ---- what is read, and what is refused ----

  ghost predicate TextOk(p: Pattern, j: Json)
  {
    j.Str? && Matches(p, Strip(j.s))
  }

  ghost predicate NumberOk(j: Json)
  {
    j.Num? && j.n >= 0
  }

  ghost predicate BindingOk(j: Json)
  {
    && j.Obj? && j.fields.Keys == {ClaimId, AttemptId, SemanticEpoch, LeaseFencingToken}
    && TextOk(Identifier, j.fields[ClaimId]) && TextOk(Identifier, j.fields[AttemptId]) && NumberOk(j.fields[SemanticEpoch])
    && (j.fields[LeaseFencingToken] == Null || NumberOk(j.fields[LeaseFencingToken]))
  }

  ghost predicate UsageOk(j: Json)
  {
    || j in {Null, Bool(false), Num(0), Str(""), Arr([]), Obj(map[])}
    || (j.Obj? && forall k | k in j.fields :: k.Counter? && k.i < 10 && NumberOk(j.fields[k]))
  }

  ghost predicate Given(f: map<Key, Json>, k: Key)
  {
    k in f && f[k] != Null
  }

  ghost predicate HeadOk(f: map<Key, Json>)
  {
    && {SchemaVersion, RecordType, BridgeSeq, Invocation, BindingOf, Session} <= f.Keys
    && f[SchemaVersion] == Str("lhos-dsh-phase-bridge.v1")
    && TextOk(Status, f[RecordType]) && NumberOk(f[BridgeSeq]) && TextOk(InvocationId, f[Invocation])
    && BindingOk(f[BindingOf]) && TextOk(Identifier, f[Session])
  }

  ghost predicate TextsOk(f: map<Key, Json>)
  {
    forall k | k in TEXT_KEYS && Given(f, k) :: TextOk(PatternOf(k), f[k])
  }

  /** Event types, states, digests and identifiers each have their own form. */
  lemma TextForms()
    ensures TEXT_KEYS == {EventTypeOf, StatusOf, Durability, ToolName, CompactionId, ToolNameSha256}
    ensures PatternOf(EventTypeOf) == EventType && PatternOf(StatusOf) == PatternOf(Durability) == Status
    ensures PatternOf(ToolName) == PatternOf(CompactionId) == Identifier && PatternOf(ToolNameSha256) == Sha256
  {
  }

  ghost predicate OptionsOk(f: map<Key, Json>)
  {
    && (forall k | k in {SourceSeq, Turn, Step} && Given(f, k) :: NumberOk(f[k]))
    && TextsOk(f)
    && (UsageOf in f ==> UsageOk(f[UsageOf]))
  }

  ghost predicate TogetherOk(f: map<Key, Json>)
    requires HeadOk(f)
  {
    && !(Given(f, ToolName) && Given(f, ToolNameSha256))
    && (Strip(f[RecordType].s) == "session_event" ==> Given(f, EventTypeOf) && Given(f, SourceSeq))
  }

  lemma FramedExact(j: Json)
    ensures Framed(j) <==>
      && j.Obj? && NothingForbidden(j) && {SchemaVersion, RecordType, BridgeSeq, Invocation, BindingOf, Session} <= j.fields.Keys
      && j.fields[SchemaVersion] == Str("lhos-dsh-phase-bridge.v1")
      && forall k | k in j.fields :: RecordKey(k)
  {
    if j.Obj? {
      forall k | k in j.fields ensures k in RECORD_KEYS <==> RecordKey(k) {
        KeyListed(k);
      }
    }
  }

  lemma BindingExact(j: Json)
    ensures ReadBinding(j).Some? <==> BindingOk(j)
    ensures BindingOk(j) ==>
      ReadBinding(j) == Some(Binding(Strip(j.fields[ClaimId].s), Strip(j.fields[AttemptId].s), j.fields[SemanticEpoch].n,
                                     if j.fields[LeaseFencingToken] == Null then None else Some(j.fields[LeaseFencingToken].n)))
  {
  }

  lemma UsageExact(j: Json)
    ensures ReadUsage(j).Some? <==> UsageOk(j)
    ensures UsageOk(j) ==> forall i: nat ::
      && (i in ReadUsage(j).value <==> j.Obj? && Counter(i) in j.fields)
      && (i in ReadUsage(j).value ==> j.fields[Counter(i)] == Num(ReadUsage(j).value[i]))
  {
  }

  lemma NumbersExact(f: map<Key, Json>)
    ensures ReadNumbers(f).Some? <==> forall k | k in {SourceSeq, Turn, Step} && Given(f, k) :: NumberOk(f[k])
    ensures ReadNumbers(f).Some? ==> forall k ::
      && (k in ReadNumbers(f).value <==> k in {SourceSeq, Turn, Step} && Given(f, k))
      && (k in ReadNumbers(f).value ==> f[k] == Num(ReadNumbers(f).value[k]))
  {
    if AllNumbers(f) {
      forall k | k in {SourceSeq, Turn, Step} && Given(f, k) ensures NumberOk(f[k]) {
        assert ReadableNumber(Field(f, k));
      }
    }
  }

  lemma TextExact(f: map<Key, Json>, k: Key)
    ensures ReadableText(k, Field(f, k)) <==> (Given(f, k) ==> TextOk(PatternOf(k), f[k]))
    ensures Given(f, k) && ReadableText(k, Field(f, k)) ==> ReadString(PatternOf(k), Field(f, k)) == Some(Strip(f[k].s))
  {
  }

  lemma TextsExact(f: map<Key, Json>)
    ensures ReadTexts(f).Some? <==> TextsOk(f)
    ensures ReadTexts(f).Some? ==> forall k ::
      && (k in ReadTexts(f).value <==> k in TEXT_KEYS && Given(f, k))
      && (k in ReadTexts(f).value ==> f[k].Str? && ReadTexts(f).value[k] == Strip(f[k].s))
  {
    forall k
      ensures ReadableText(k, Field(f, k)) <==> (Given(f, k) ==> TextOk(PatternOf(k), f[k]))
      ensures Given(f, k) && ReadableText(k, Field(f, k)) ==> ReadString(PatternOf(k), Field(f, k)) == Some(Strip(f[k].s))
    {
      TextExact(f, k);
    }
  }

  /** The record holds what the fields say, without the blanks around the texts. */
  ghost predicate Holds(f: map<Key, Json>, r: Record)
    requires HeadOk(f)
  {
    && r.kind == Strip(f[RecordType].s) && r.seqNo == f[BridgeSeq].n && r.invocation == Strip(f[Invocation].s)
    && r.session == Strip(f[Session].s)
    && r.binding.claim == Strip(f[BindingOf].fields[ClaimId].s) && r.binding.attempt == Strip(f[BindingOf].fields[AttemptId].s)
    && r.binding.epoch == f[BindingOf].fields[SemanticEpoch].n
    && (f[BindingOf].fields[LeaseFencingToken] ==
          match r.binding.token case None => Null case Some(n) => Num(n))
    && (forall k :: k in r.numbers <==> k in {SourceSeq, Turn, Step} && Given(f, k))
    && (forall k | k in r.numbers :: f[k] == Num(r.numbers[k]))
    && (forall k :: k in r.texts <==> k in TEXT_KEYS && Given(f, k))
    && (forall k | k in r.texts :: f[k].Str? && r.texts[k] == Strip(f[k].s))
    && (forall i: nat :: i in r.usage <==> UsageOf in f && f[UsageOf].Obj? && Counter(i) in f[UsageOf].fields)
    && (forall i: nat | i in r.usage :: f[UsageOf].fields[Counter(i)] == Num(r.usage[i]))
  }

  lemma HeadReads(f: map<Key, Json>)
    requires HeadOk(f)
    ensures ReadString(Status, Field(f, RecordType)) == Some(Strip(f[RecordType].s))
    ensures ReadNat(Field(f, BridgeSeq)) == Some(f[BridgeSeq].n)
    ensures ReadString(InvocationId, Field(f, Invocation)) == Some(Strip(f[Invocation].s))
    ensures ReadString(Identifier, Field(f, Session)) == Some(Strip(f[Session].s))
  {
  }

  lemma UsageField(f: map<Key, Json>)
    ensures ReadUsage(Field(f, UsageOf)).Some? <==> (UsageOf in f ==> UsageOk(f[UsageOf]))
    ensures ReadUsage(Field(f, UsageOf)).Some? ==> forall i: nat ::
      && (i in ReadUsage(Field(f, UsageOf)).value <==> UsageOf in f && f[UsageOf].Obj? && Counter(i) in f[UsageOf].fields)
      && (i in ReadUsage(Field(f, UsageOf)).value ==> f[UsageOf].fields[Counter(i)] == Num(ReadUsage(Field(f, UsageOf)).value[i]))
  {
    UsageExact(Field(f, UsageOf));
  }

  /** The whole of what a mapping must be. */
  ghost predicate RecordOk(j: Json)
  {
    && j.Obj? && NothingForbidden(j) && (forall k | k in j.fields :: RecordKey(k))
    && HeadOk(j.fields) && OptionsOk(j.fields) && TogetherOk(j.fields)
  }

  lemma ReadRecord(j: Json, f: map<Key, Json>)
    requires Framed(j) && f == j.fields && HeadOk(f)
    ensures FromMapping(j).Some? <==> OptionsOk(f) && TogetherOk(f)
    ensures FromMapping(j).Some? ==> Holds(f, FromMapping(j).value)
  {
    HeadReads(f);
    BindingExact(Field(f, BindingOf));
    NumbersExact(f);
    TextsExact(f);
    UsageField(f);
    TextForms();
  }

  lemma NeedsHead(j: Json)
    requires FromMapping(j).Some?
    ensures Framed(j) && HeadOk(j.fields)
  {
    FramedExact(j);
    BindingExact(Field(j.fields, BindingOf));
  }

  /** from_mapping accepts exactly the well-formed mappings, and the record it makes holds
      what the mapping says. */
  lemma FromMappingExact(j: Json)
    ensures FromMapping(j).Some? <==> RecordOk(j)
    ensures RecordOk(j) ==> Holds(j.fields, FromMapping(j).value)
  {
    FramedExact(j);
    if FromMapping(j).Some? {
      NeedsHead(j);
    }
    if Framed(j) && HeadOk(j.fields) {
      ReadRecord(j, j.fields);
    }
  }

  // ---- writing ----

  function BindingDict(b: Binding): Json
  {
    Obj(map[ClaimId := Str(b.claim), AttemptId := Str(b.attempt), SemanticEpoch := Num(b.epoch),
            LeaseFencingToken := if b.token == None then Null else Num(b.token.value)])
  }

  function UsageDict(u: map<nat, nat>): Json
  {
    Obj(map i | i in u :: Counter(i) := Num(u[i]))
  }

  /** The value of a record under each of its keys; an absent option is null. */
  function Value(r: Record, k: Key): Json
  {
    match k
    case SchemaVersion => Str(SCHEMA)
    case RecordType => Str(r.kind)
    case BridgeSeq => Num(r.seqNo)
    case Invocation => Str(r.invocation)
    case BindingOf => BindingDict(r.binding)
    case Session => Str(r.session)
    case UsageOf => UsageDict(r.usage)
    case _ => if k in r.numbers then Num(r.numbers[k]) else if k in r.texts then Str(r.texts[k]) else Null
  }

  /** BridgeRecord.as_dict. */
  function AsDict(r: Record): Json
  {
    Obj(map k | k in RECORD_KEYS :: Value(r, k))
  }

  lemma StringBack(p: Pattern, s: string)
    requires Matches(p, s)
    ensures ReadString(p, Str(s)) == Some(s)
  {
    MatchedIsStripped(p, s);
  }

  lemma BindingBack(b: Binding)
    requires ValidBinding(b)
    ensures ReadBinding(BindingDict(b)) == Some(b)
  {
    StringBack(Identifier, b.claim);
    StringBack(Identifier, b.attempt);
  }

  lemma UsageFields(u: map<nat, nat>, f: map<Key, Json>)
    requires f == UsageDict(u).fields
    ensures forall i: nat :: Counter(i) in f <==> i in u
    ensures forall k | k in f :: k.Counter? && k.i in u && f[k] == Num(u[k.i])
  {
    assert forall i | i in u :: Counter(i) in f;
  }

  lemma CountersBack(u: map<nat, nat>, f: map<Key, Json>)
    requires (forall k | k in u :: k < COUNTERS) && f == UsageDict(u).fields
    ensures AllCounters(f) && Counters(f) == u
  {
    UsageFields(u, f);
    var m := Counters(f);
    forall i: nat ensures i in m.Keys <==> i in u.Keys {
    }
    forall i: nat | i in m ensures m[i] == u[i] {
      assert f[Counter(i)] == Num(u[i]);
    }
    SameMap(m, u);
  }

  lemma UsageBack(u: map<nat, nat>)
    requires forall k | k in u :: k < COUNTERS
    ensures ReadUsage(UsageDict(u)) == Some(u)
  {
    var f := UsageDict(u).fields;
    CountersBack(u, f);
    if f == map[] {
      assert Counters(f) == map[];
    }
  }

  lemma NumbersBack(ns: map<Key, nat>, f: map<Key, Json>)
    requires ns.Keys <= NUMBER_KEYS
    requires forall k | k in NUMBER_KEYS :: Field(f, k) == if k in ns then Num(ns[k]) else Null
    ensures ReadNumbers(f) == Some(ns)
  {
    assert AllNumbers(f);
    SameMap(Numbers(f), ns);
  }

  lemma TextBack(k: Key, s: Option<string>, j: Json)
    requires j == (if s == None then Null else Str(s.value)) && (s.Some? ==> Matches(PatternOf(k), s.value))
    ensures ReadableText(k, j) && (s.Some? ==> ReadString(PatternOf(k), j) == s)
  {
    if s.Some? {
      StringBack(PatternOf(k), s.value);
    }
  }

  lemma TextsAre(ts: map<Key, string>, f: map<Key, Json>)
    requires AllTexts(f) && ts.Keys <= TEXT_KEYS
    requires forall k | k in TEXT_KEYS :: k in ts <==> Field(f, k) != Null
    requires forall k | k in ts :: ReadString(PatternOf(k), Field(f, k)) == Some(ts[k])
    ensures Texts(f) == ts
  {
    SameMap(Texts(f), ts);
  }

  lemma TextsBack(ts: map<Key, string>, f: map<Key, Json>)
    requires ValidTexts(ts)
    requires forall k | k in TEXT_KEYS :: Field(f, k) == if k in ts then Str(ts[k]) else Null
    ensures ReadTexts(f) == Some(ts)
  {
    forall k | k in TEXT_KEYS
      ensures ReadableText(k, Field(f, k)) && (k in ts ==> ReadString(PatternOf(k), Field(f, k)) == Some(ts[k]))
    {
      TextBack(k, if k in ts then Some(ts[k]) else None, Field(f, k));
    }
    TextsAre(ts, f);
  }

  lemma UsageClean(u: map<nat, nat>)
    ensures NothingForbidden(UsageDict(u))
  {
    UsageFields(u, UsageDict(u).fields);
  }

  lemma BindingClean(b: Binding)
    ensures NothingForbidden(BindingDict(b))
  {
  }

  lemma ValueClean(r: Record, k: Key)
    ensures NothingForbidden(Value(r, k))
  {
    if k == BindingOf {
      BindingClean(r.binding);
    } else if k == UsageOf {
      UsageClean(r.usage);
    } else {
      assert !Value(r, k).Obj? && !Value(r, k).Arr?;
    }
  }

  lemma DictClean(r: Record, f: map<Key, Json>)
    requires f == (map k | k in RECORD_KEYS :: Value(r, k))
    ensures NothingForbidden(Obj(f))
  {
    forall k | k in f ensures !k.Forbidden? && NothingForbidden(f[k]) {
      ValueClean(r, k);
    }
  }

  lemma DictKeys(r: Record)
    ensures REQUIRED_KEYS <= AsDict(r).fields.Keys <= RECORD_KEYS && Field(AsDict(r).fields, SchemaVersion) == Str(SCHEMA)
  {
    assert AsDict(r).fields.Keys == RECORD_KEYS;
  }

  lemma DictFramed(r: Record)
    ensures Framed(AsDict(r))
  {
    DictClean(r, AsDict(r).fields);
    DictKeys(r);
  }

  predicate RecordKey(k: Key)
  {
    !(k.ClaimId? || k.AttemptId? || k.SemanticEpoch? || k.LeaseFencingToken? || k.Counter? || k.Forbidden? || k.Other?)
  }

  lemma KeyListed(k: Key)
    ensures k in RECORD_KEYS <==> RecordKey(k)
  {
  }

  /** The fields f hold the value of r under each key of a record. */
  ghost predicate Written(f: map<Key, Json>, r: Record)
  {
    forall k | RecordKey(k) :: Field(f, k) == Value(r, k)
  }

  lemma Lookup(r: Record, f: map<Key, Json>)
    requires f == AsDict(r).fields
    ensures Written(f, r)
  {
    forall k | RecordKey(k) ensures Field(f, k) == Value(r, k) {
      KeyListed(k);
    }
  }

  lemma NumberFields(r: Record, f: map<Key, Json>)
    requires Written(f, r) && ValidTexts(r.texts)
    ensures forall k | k in NUMBER_KEYS :: Field(f, k) == if k in r.numbers then Num(r.numbers[k]) else Null
  {
    forall k | k in NUMBER_KEYS ensures Field(f, k) == if k in r.numbers then Num(r.numbers[k]) else Null {
      assert RecordKey(k);
    }
  }

  lemma TextFields(r: Record, f: map<Key, Json>)
    requires Written(f, r) && r.numbers.Keys <= NUMBER_KEYS
    ensures forall k | k in TEXT_KEYS :: Field(f, k) == if k in r.texts then Str(r.texts[k]) else Null
  {
    forall k | k in TEXT_KEYS ensures Field(f, k) == if k in r.texts then Str(r.texts[k]) else Null {
      assert RecordKey(k);
    }
  }

  lemma HeadFields(r: Record, f: map<Key, Json>)
    requires Written(f, r)
    ensures Field(f, RecordType) == Str(r.kind) && Field(f, BridgeSeq) == Num(r.seqNo) && Field(f, Session) == Str(r.session)
    ensures Field(f, Invocation) == Str(r.invocation)
  {
    assert RecordKey(RecordType) && RecordKey(BridgeSeq) && RecordKey(Session) && RecordKey(Invocation);
  }

  lemma NestedFields(r: Record, f: map<Key, Json>)
    requires Written(f, r)
    ensures Field(f, BindingOf) == BindingDict(r.binding) && Field(f, UsageOf) == UsageDict(r.usage)
  {
    assert RecordKey(BindingOf) && RecordKey(UsageOf);
  }

  /** Every part of r is what the fields of j read as. */
  predicate ReadsAs(f: map<Key, Json>, r: Record)
  {
    && ReadString(Status, Field(f, RecordType)) == Some(r.kind) && ReadNat(Field(f, BridgeSeq)) == Some(r.seqNo)
    && ReadString(InvocationId, Field(f, Invocation)) == Some(r.invocation)
    && ReadBinding(Field(f, BindingOf)) == Some(r.binding) && ReadString(Identifier, Field(f, Session)) == Some(r.session)
    && ReadNumbers(f) == Some(r.numbers) && ReadUsage(Field(f, UsageOf)) == Some(r.usage) && ReadTexts(f) == Some(r.texts)
  }

  lemma HeadBack(r: Record)
    requires ValidHead(r)
    ensures ReadString(Status, Str(r.kind)) == Some(r.kind) && ReadString(InvocationId, Str(r.invocation)) == Some(r.invocation)
    ensures ReadString(Identifier, Str(r.session)) == Some(r.session) && ReadBinding(BindingDict(r.binding)) == Some(r.binding)
  {
    StringBack(Status, r.kind);
    StringBack(InvocationId, r.invocation);
    StringBack(Identifier, r.session);
    BindingBack(r.binding);
  }

  lemma PartsBack(r: Record, f: map<Key, Json>)
    requires Written(f, r) && Valid(r)
    ensures ReadsAs(f, r)
  {
    HeadFields(r, f);
    NestedFields(r, f);
    HeadBack(r);
    UsageBack(r.usage);
    NumberFields(r, f);
    NumbersBack(r.numbers, f);
    TextFields(r, f);
    TextsBack(r.texts, f);
  }

  lemma Decoded(j: Json, r: Record)
    requires Framed(j) && ReadsAs(j.fields, r) && Consistent(r)
    ensures FromMapping(j) == Some(r)
  {
  }

  /** Reading back what was written returns every valid record unchanged. */
  lemma RoundTrip(r: Record)
    requires Valid(r)
    ensures FromMapping(AsDict(r)) == Some(r)
  {
    DictFramed(r);
    Lookup(r, AsDict(r).fields);
    PartsBack(r, AsDict(r).fields);
    Decoded(AsDict(r), r);
  }

  /** Whatever is accepted is put in a normal form that reads as the same record. */
  lemma NormalForm(j: Json)
    requires FromMapping(j).Some?
    ensures FromMapping(AsDict(FromMapping(j).value)) == FromMapping(j)
  {
    RoundTrip(FromMapping(j).value);
  }

  // ---- streams ----

  datatype Expected = Expected(binding: Option<Binding>, invocation: Option<string>, session: Option<string>)

  /** The expected invocation id has to be one itself. */
  predicate WellExpected(x: Expected)
  {
    x.invocation.Some? ==> Matches(InvocationId, Strip(x.invocation.value))
  }

  /** The expected invocation id is compared without the blanks around it, the session id
      as it is. */
  ghost predicate InPlace(x: Expected, r: Record, i: nat)
  {
    && r.seqNo == i
    && (x.invocation.Some? ==> r.invocation == Strip(x.invocation.value))
    && (x.binding.Some? ==> r.binding == x.binding.value)
    && (x.session.Some? ==> r.session == x.session.value)
  }

  ghost predicate IsEvent(r: Record)
  {
    r.kind == SESSION_EVENT
  }

  /** Holds of every valid record. */
  ghost predicate Sourced(r: Record)
  {
    IsEvent(r) ==> SourceSeq in r.numbers
  }

  /** Two session events of one session, in stream order. */
  ghost predicate Advances(r: Record, s: Record)
    requires Sourced(r) && Sourced(s)
  {
    IsEvent(r) && IsEvent(s) && r.session == s.session ==> r.numbers[SourceSeq] < s.numbers[SourceSeq]
  }

  ghost predicate AllSourced(rs: seq<Record>)
  {
    forall i | 0 <= i < |rs| :: Sourced(rs[i])
  }

  /** Every record in its place with the expected identity, and source sequence numbers
      strictly increasing within each session. */
  ghost predicate Accepted(x: Expected, rs: seq<Record>)
    requires AllSourced(rs)
  {
    && WellExpected(x)
    && (forall i: nat | i < |rs| :: InPlace(x, rs[i], i))
    && (forall i, j | 0 <= i < j < |rs| :: Advances(rs[i], rs[j]))
  }

  /** The map holds the latest source number of every session so far. */
  ghost predicate Latest(rs: seq<Record>, n: nat, last: map<string, nat>)
    requires n <= |rs| && AllSourced(rs)
  {
    && (forall s | s in last :: exists i | 0 <= i < n :: IsEvent(rs[i]) && rs[i].session == s && rs[i].numbers[SourceSeq] == last[s])
    && (forall i | 0 <= i < n && IsEvent(rs[i]) :: rs[i].session in last && rs[i].numbers[SourceSeq] <= last[rs[i].session])
  }

  /** The first n records are in order. */
  ghost predicate UpTo(x: Expected, rs: seq<Record>, n: nat, last: map<string, nat>)
    requires AllSourced(rs)
  {
    && n <= |rs|
    && (forall i: nat | i < n :: InPlace(x, rs[i], i))
    && (forall i, j | 0 <= i < j < n :: Advances(rs[i], rs[j]))
    && Latest(rs, n, last)
  }

  lemma Regressed(rs: seq<Record>, n: nat, last: map<string, nat>)
    requires AllSourced(rs) && n < |rs| && Latest(rs, n, last)
    requires IsEvent(rs[n]) && rs[n].session in last && rs[n].numbers[SourceSeq] <= last[rs[n].session]
    ensures exists i | 0 <= i < n :: !Advances(rs[i], rs[n])
  {
    var i :| 0 <= i < n && IsEvent(rs[i]) && rs[i].session == rs[n].session && rs[i].numbers[SourceSeq] == last[rs[n].session];
    assert !Advances(rs[i], rs[n]);
  }

  lemma Advanced(x: Expected, rs: seq<Record>, n: nat, last: map<string, nat>)
    requires AllSourced(rs) && n < |rs| && UpTo(x, rs, n, last) && InPlace(x, rs[n], n)
    requires IsEvent(rs[n]) && rs[n].session in last ==> last[rs[n].session] < rs[n].numbers[SourceSeq]
    ensures UpTo(x, rs, n + 1, if IsEvent(rs[n]) then last[rs[n].session := rs[n].numbers[SourceSeq]] else last)
  {
    LatestNext(rs, n, last);
  }

  /** validate_phase_bridge_records: one pass and one map decide what compares all pairs. */
  method Validate(x: Expected, rs: seq<Record>) returns (ok: bool)
    requires AllSourced(rs)
    ensures ok <==> Accepted(x, rs)
  {
    var invocation: Option<string> := None;
    if x.invocation.Some? {
      invocation := ReadString(InvocationId, Str(x.invocation.value));
      if invocation == None {
        return false;
      }
    }
    var last: map<string, nat> := map[];
    for n := 0 to |rs|
      invariant UpTo(x, rs, n, last)
    {
      var r := rs[n];
      if r.seqNo != n {
        return false;
      }
      if invocation.Some? && r.invocation != invocation.value {
        return false;
      }
      if x.binding.Some? && r.binding != x.binding.value {
        return false;
      }
      if x.session.Some? && r.session != x.session.value {
        return false;
      }
      if r.kind == "session_event" {
        if r.session in last && r.numbers[SourceSeq] <= last[r.session] {
          Regressed(rs, n, last);
          return false;
        }
        Advanced(x, rs, n, last);
        last := last[r.session := r.numbers[SourceSeq]];
      } else {
        Advanced(x, rs, n, last);
      }
    }
    return true;
  }

  lemma LatestNext(rs: seq<Record>, n: nat, last: map<string, nat>)
    requires n < |rs| && AllSourced(rs) && Latest(rs, n, last)
    requires IsEvent(rs[n]) && rs[n].session in last ==> last[rs[n].session] < rs[n].numbers[SourceSeq]
    ensures Latest(rs, n + 1, if IsEvent(rs[n]) then last[rs[n].session := rs[n].numbers[SourceSeq]] else last)
  {
  }

  /** The last event of r's session in the stream is number i. */
  ghost predicate LastEvent(rs: seq<Record>, r: Record, i: nat)
  {
    && i < |rs| && IsEvent(rs[i]) && rs[i].session == r.session
    && forall j | i < j < |rs| :: !(IsEvent(rs[j]) && rs[j].session == r.session)
  }

  lemma {:induction false} EventBefore(rs: seq<Record>, r: Record, n: nat, i: nat) returns (last: nat)
    requires i < n <= |rs| && IsEvent(rs[i]) && rs[i].session == r.session
    requires forall j | n <= j < |rs| :: !(IsEvent(rs[j]) && rs[j].session == r.session)
    ensures i <= last && LastEvent(rs, r, last)
  {
    if IsEvent(rs[n - 1]) && rs[n - 1].session == r.session {
      last := n - 1;
    } else {
      last := EventBefore(rs, r, n - 1, i);
    }
  }

  lemma AppendAccepted(x: Expected, rs: seq<Record>, r: Record)
    requires AllSourced(rs) && Sourced(r)
    ensures AllSourced(rs + [r])
    ensures Accepted(x, rs + [r])
       <==> Accepted(x, rs) && InPlace(x, r, |rs|) && forall i | 0 <= i < |rs| :: Advances(rs[i], r)
  {
    var all := rs + [r];
    assert forall i: nat | i < |rs| :: all[i] == rs[i];
    if Accepted(x, all) {
      assert InPlace(x, all[|rs|], |rs|);
      forall i: nat | i < |rs| ensures InPlace(x, rs[i], i) && Advances(rs[i], r) {
        assert InPlace(x, all[i], i) && Advances(all[i], all[|rs|]);
      }
      forall i, j | 0 <= i < j < |rs| ensures Advances(rs[i], rs[j]) {
        assert Advances(all[i], all[j]);
      }
    }
  }

  /** A stream may be continued by a record exactly when the record is in place and, being
      an event, is ahead of the last event of its session: earlier ones need no look. */
  lemma ContinuesExactly(x: Expected, rs: seq<Record>, r: Record)
    requires AllSourced(rs) && Sourced(r) && Accepted(x, rs)
    ensures AllSourced(rs + [r])
    ensures Accepted(x, rs + [r])
       <==> InPlace(x, r, |rs|) && forall i: nat | LastEvent(rs, r, i) :: Advances(rs[i], r)
  {
    AppendAccepted(x, rs, r);
    if forall i: nat | LastEvent(rs, r, i) :: Advances(rs[i], r) {
      forall i: nat | i < |rs| ensures Advances(rs[i], r) {
        if IsEvent(rs[i]) && IsEvent(r) && rs[i].session == r.session {
          var last := EventBefore(rs, r, |rs|, i);
          assert i < last ==> Advances(rs[i], rs[last]);
        }
      }
    }
  }

  /** Every prefix of an accepted stream is accepted. */
  lemma AcceptedPrefix(x: Expected, rs: seq<Record>, n: nat)
    requires AllSourced(rs) && n <= |rs| && Accepted(x, rs)
    ensures AllSourced(rs[..n]) && Accepted(x, rs[..n])
  {
  }
}
