/** The evidence side of tools/agx_render_gate.py: completion receipts, one-shot results,
    reset receipts, and the ten-cycle cold aggregate.  The canonical SHA-256 of a document
    is a parameter. */
module RenderEvidence {
  import opened Results
  import opened Json
  import Intervals

  type Digest = Object -> Sha256

  const CONTEXT_ID := 63
  const PAGE_SIZE := 0x4000
  const CYCLES := 10

  datatype Contract = Contract(platform: string, firmware: string, sha256: string)
  datatype Fixture = Fixture(sha256: string, poison: string, expected: string)

  // ---- Completion receipts ----

  function CompletionFields(): set<string> {
    {
      "context_id", "page_size", "queue_index", "ta_command_count", "d3_command_count",
      "ta_producer_before", "ta_producer_after", "ta_read_before", "ta_read_after", "ta_done_before", "ta_done_after",
      "d3_producer_before", "d3_producer_after", "d3_read_before", "d3_read_after", "d3_done_before", "d3_done_after",
      "wrap_ambiguous", "ta_event_id", "d3_event_id", "event_ta_matches", "event_3d_matches", "spurious_events",
      "ta_stamp_before", "ta_stamp_after", "d3_stamp_before", "d3_stamp_after",
      "output_sha256_before", "output_sha256_after", "immutable_sha256_before", "immutable_sha256_after",
      "guards_unmapped", "declared_mapping_count", "mapping_classification", "unexpected_mappings",
      "firmware_faults", "physical_fault_readable", "physical_fault_value", "cleanup_complete", "elapsed_s", "deadline_s"
    }
  }

  /** The fields that must be one exact integer. */
  function Literals(): map<string, int> {
    map[
      "context_id" := CONTEXT_ID, "page_size" := PAGE_SIZE, "queue_index" := 1,
      "ta_command_count" := 2, "d3_command_count" := 2,
      "ta_producer_before" := 0, "ta_producer_after" := 2, "ta_read_before" := 0, "ta_read_after" := 2,
      "ta_done_before" := 0, "ta_done_after" := 2,
      "d3_producer_before" := 0, "d3_producer_after" := 2, "d3_read_before" := 0, "d3_read_after" := 2,
      "d3_done_before" := 0, "d3_done_after" := 2,
      "event_ta_matches" := 1, "event_3d_matches" := 1,
      "ta_stamp_before" := 0x7A00_0000, "ta_stamp_after" := 0x7A00_0100,
      "d3_stamp_before" := 0x3D00_0000, "d3_stamp_after" := 0x3D00_0100
    ]
  }

  datatype Mapping = Mapping(kind: string, context: int, address: int, size: int)

  /** One entry of the mapping classification, if every check on it alone passes. */
  function ParseMapping(v: Json): Option<Mapping> {
    if !v.Obj? || v.fields.Keys != {"class", "context_id", "gpu_va", "size"} then None else
      var kind, context, address, size :=
        v.fields["class"], v.fields["context_id"], v.fields["gpu_va"], v.fields["size"];
      if || !kind.Str? || kind.s !in {"bootstrap", "frame", "renderer", "firmware-shared"}
         || !IsInt(context, 0) || !IsInt(address, 0) || !IsInt(size, 0)
         || (context.n != 0 && context.n != CONTEXT_ID)
         || (kind.s == "firmware-shared" && context.n != 0)
         || (kind.s != "firmware-shared" && context.n != CONTEXT_ID)
         || size.n <= 0 || address.n % PAGE_SIZE != 0 || size.n % PAGE_SIZE != 0
         || address.n + size.n > 0x1_0000_0000_0000_0000
      then None
      else Some(Mapping(kind.s, context.n, address.n, size.n))
  }

  function MappingSpans(items: seq<Json>): (r: seq<Intervals.Span>)
    requires forall i | 0 <= i < |items| :: ParseMapping(items[i]).Some?
    ensures |r| == |items|
    ensures forall i | 0 <= i < |r| :: var m := ParseMapping(items[i]).value;
      r[i] == Intervals.Span(m.context, m.address, m.address + m.size) && 0 < m.size
  {
    seq(|items|, i requires 0 <= i < |items| => var m := ParseMapping(items[i]).value;
      Intervals.Span(m.context, m.address, m.address + m.size))
  }

  predicate HasKind(items: seq<Json>, kind: string) {
    exists i | 0 <= i < |items| :: var m := ParseMapping(items[i]); m.Some? && m.value.kind == kind
  }

  predicate ValidMappings(v: Json, declared: Json) {
    && v.Arr? && v.items != []
    && declared == Int(|v.items|)
    && (forall i | 0 <= i < |v.items| :: ParseMapping(v.items[i]).Some?)
    && HasKind(v.items, "bootstrap") && HasKind(v.items, "frame") && HasKind(v.items, "renderer")
    && Intervals.NeighboursApart(Intervals.Sort(MappingSpans(v.items)))
  }

  predicate IsHash(v: Json) {
    v.Str? && IsSha256(v.s)
  }

  /** `validate_render_completion` returns rather than raising. */
  predicate ValidCompletion(v: Json, poison: string, expected: string) {
    && v.Obj?
    && v.fields.Keys == CompletionFields()
    && var r := v.fields;
    && (forall f | f in Literals() :: Get(r, f) == Int(Literals()[f]))
    && Get(r, "wrap_ambiguous") == Bool(false)
    && IsInt(Get(r, "ta_event_id"), 0) && IsInt(Get(r, "d3_event_id"), 0)
    && Get(r, "ta_event_id") != Get(r, "d3_event_id")
    && Get(r, "spurious_events") == Arr([])
    && IsHash(Get(r, "output_sha256_before")) && Get(r, "output_sha256_before") == Str(poison)
    && IsHash(Get(r, "output_sha256_after")) && Get(r, "output_sha256_after") == Str(expected)
    && IsHash(Get(r, "immutable_sha256_before"))
    && Get(r, "immutable_sha256_before") == Get(r, "immutable_sha256_after")
    && Get(r, "guards_unmapped") == Bool(true)
    && ValidMappings(Get(r, "mapping_classification"), Get(r, "declared_mapping_count"))
    && Get(r, "unexpected_mappings") == Arr([])
    && Get(r, "firmware_faults") == Obj(map[])
    && Get(r, "physical_fault_readable").Bool?
    && Get(r, "physical_fault_value") == (if Get(r, "physical_fault_readable").b then Int(0) else Null)
    && Get(r, "cleanup_complete") == Bool(true)
    && ValidTiming(Get(r, "elapsed_s"), Get(r, "deadline_s"))
  }

  /** A number that is not a bool, at least 0 and at most the fixed half second. */
  predicate ValidTiming(elapsed: Json, deadline: Json) {
    && (elapsed.Int? || elapsed.Float?) && (deadline.Int? || deadline.Float?)
    && 0.0 <= Number(elapsed).value <= Number(deadline).value == 0.5
  }

  /** In a valid completion no two classified mappings of one context share an address:
      the neighbour scan over the sorted list is exact. */
  lemma ValidMappingsDisjoint(v: Json, declared: Json, i: nat, j: nat)
    requires ValidMappings(v, declared) && i < j < |v.items|
    ensures var a, b := ParseMapping(v.items[i]).value, ParseMapping(v.items[j]).value;
      a.context != b.context || a.address + a.size <= b.address || b.address + b.size <= a.address
  {
    var spans := MappingSpans(v.items);
    Intervals.NeighbourScanExact(spans, Intervals.Sort(spans));
    assert Intervals.Apart(spans[i], spans[j]);
  }

  // ---- One-shot results ----

  function OneShotFields(): set<string> {
    {
      "render_gate_version", "contract_sha256", "fixture_sha256", "requested_cycles",
      "completed_cycles", "cycles", "verdict", "windows_launch_permitted"
    }
  }
  function OneShotCycleFields(): set<string> {
    {
      "cycle", "status", "heartbeat", "host_submit_elapsed_s", "completion", "snapshot"
    }
  }

  /** The record of a complete one-shot result and the boot it ran in. */
  datatype Shot = Shot(record: Object, base: int, cookie: int, proxy: string)

  /** record["snapshot"]["firmware"] */
  function Firmware(record: Object): Option<Object> {
    var snapshot := Get(record, "snapshot");
    if !snapshot.Obj? then None else
      var firmware := Get(snapshot.fields, "firmware");
      if firmware.Obj? then Some(firmware.fields) else None
  }

  /** `_validate_one_shot`; None when it raises. */
  function ValidateOneShot(data: Object, contract: Contract, fixture: Fixture): Option<Shot> {
    var records := Get(data, "cycles");
    if || data.Keys != OneShotFields()
       || !EqInt(Get(data, "render_gate_version"), 2)
       || Get(data, "contract_sha256") != Str(contract.sha256)
       || Get(data, "fixture_sha256") != Str(fixture.sha256)
       || !EqInt(Get(data, "requested_cycles"), 1)
       || !EqInt(Get(data, "completed_cycles"), 1)
       || !records.Arr? || |records.items| != 1 || !records.items[0].Obj?
    then None else
      var record := records.items[0].fields;
      if || record.Keys != OneShotCycleFields()
         || !EqInt(Get(record, "cycle"), 1)
         || Get(record, "status") != Str("passed")
         || Get(data, "verdict") != Str("incomplete")
         || Get(data, "windows_launch_permitted") != Bool(false)
         || !ValidCompletion(Get(record, "completion"), fixture.poison, fixture.expected)
         || Firmware(record).None?
      then None else
        var firmware := Firmware(record).value;
        var base, cookie, proxy := Get(firmware, "m1n1_base"), Get(firmware, "boot_cookie"), Get(firmware, "proxy_identity");
        if !IsInt(base, 1) || !IsInt(cookie, 1) || !proxy.Str? || proxy.s == "" then None
        else Some(Shot(record, base.n, cookie.n, proxy.s))
  }

  // ---- Reset receipts ----

  function ResetFields(): set<string> {
    {
      "render_reset_receipt_version", "cycle", "platform", "firmware",
      "previous_proxy_identity", "proxy_identity", "previous_boot_cookie", "boot_cookie",
      "previous_m1n1_base", "m1n1_base", "cycle_result_sha256", "fresh_proxy"
    }
  }

  /** `_validate_reset` returns rather than raising. */
  predicate ValidReset(receipt: Object, index: nat, contract: Contract, shot: Shot, digest: string) {
    var proxy, cookie, base := Get(receipt, "proxy_identity"), Get(receipt, "boot_cookie"), Get(receipt, "m1n1_base");
    && receipt.Keys == ResetFields()
    && EqInt(Get(receipt, "render_reset_receipt_version"), 2)
    && EqInt(Get(receipt, "cycle"), index)
    && Get(receipt, "platform") == Str(contract.platform)
    && Get(receipt, "firmware") == Str(contract.firmware)
    && Get(receipt, "previous_proxy_identity") == Str(shot.proxy)
    && proxy.Str? && proxy.s != "" && proxy.s != shot.proxy
    && EqInt(Get(receipt, "previous_boot_cookie"), shot.cookie)
    && IsInt(cookie, 1) && cookie.n != shot.cookie
    && EqInt(Get(receipt, "previous_m1n1_base"), shot.base)
    && IsInt(base, 1) && base.n != shot.base
    && Get(receipt, "cycle_result_sha256") == Str(digest)
    && Get(receipt, "fresh_proxy") == Bool(true)
  }

  /** What the proxy reports after the reboot. */
  datatype Live = Live(platform: string, firmware: string, proxy: string, cookie: int, base: int)

  /** `record_render_proxy_receipt`; None when it raises. */
  function RecordReceipt(data: Object, contract: Contract, fixture: Fixture, cycle: int, live: Live, sha: Digest): Option<Object> {
    if cycle <= 0 then None else
      match ValidateOneShot(data, contract, fixture)
      case None => None
      case Some(shot) =>
        if || live.platform != contract.platform
           || live.firmware != contract.firmware
           || live.proxy == ""
           || live.cookie <= 0
           || live.base <= 0
           || live.proxy == shot.proxy
           || live.cookie == shot.cookie
        then None
        else Some(map[
          "render_reset_receipt_version" := Int(2),
          "cycle" := Int(cycle),
          "platform" := Str(live.platform),
          "firmware" := Str(live.firmware),
          "previous_proxy_identity" := Str(shot.proxy),
          "proxy_identity" := Str(live.proxy),
          "previous_boot_cookie" := Int(shot.cookie),
          "boot_cookie" := Int(live.cookie),
          "previous_m1n1_base" := Int(shot.base),
          "m1n1_base" := Int(live.base),
          "cycle_result_sha256" := Str(sha(data)),
          "fresh_proxy" := Bool(true)
        ])
  }

  /** A recorded receipt is accepted for its own cycle exactly when the reboot also moved
      the m1n1 base, which recording does not ask for. */
  lemma RecordedReceiptValid(data: Object, contract: Contract, fixture: Fixture, cycle: int, live: Live, sha: Digest)
    requires RecordReceipt(data, contract, fixture, cycle, live, sha).Some?
    ensures var receipt := RecordReceipt(data, contract, fixture, cycle, live, sha).value;
      var shot := ValidateOneShot(data, contract, fixture).value;
      ValidReset(receipt, cycle, contract, shot, sha(data)) <==> live.base != shot.base
  {
    hide ValidateOneShot;
    var receipt := RecordReceipt(data, contract, fixture, cycle, live, sha).value;
    assert receipt.Keys == ResetFields();
  }

  // ---- The ten-cycle aggregate ----

  /** The evidence directory: cycle-NN/render-gate-result.json and reset-NN.json; None for
      a file that is missing or not a JSON object. */
  datatype Evidence = Evidence(result: nat -> Option<Object>, reset: nat -> Option<Object>)

  function ShotOf(e: Evidence, contract: Contract, fixture: Fixture, i: nat): Option<Shot> {
    match e.result(i)
    case None => None
    case Some(data) => ValidateOneShot(data, contract, fixture)
  }

  /** Cycles `i` and `j` ran in different boots. */
  predicate DifferentBoots(e: Evidence, contract: Contract, fixture: Fixture, i: nat, j: nat) {
    var a, b := ShotOf(e, contract, fixture, i), ShotOf(e, contract, fixture, j);
    a.Some? && b.Some? && a.value.cookie != b.value.cookie && a.value.proxy != b.value.proxy
  }

  /** Reset `i` is bound by hash and identity to cycle `i`. */
  predicate ResetBound(e: Evidence, contract: Contract, fixture: Fixture, sha: Digest, i: nat) {
    var shot := ShotOf(e, contract, fixture, i);
    && shot.Some?
    && e.reset(i).Some?
    && ValidReset(e.reset(i).value, i, contract, shot.value, sha(e.result(i).value))
  }

  /** Cycle `i` booted with the identity the reset before it recorded. */
  predicate BootedByReset(e: Evidence, contract: Contract, fixture: Fixture, i: nat)
    requires 0 < i
  {
    var shot := ShotOf(e, contract, fixture, i);
    && shot.Some?
    && e.reset(i - 1).Some?
    && Get(e.reset(i - 1).value, "proxy_identity") == Str(shot.value.proxy)
    && Get(e.reset(i - 1).value, "boot_cookie") == Int(shot.value.cookie)
  }

  /** Ten complete cycles in ten different boots, chained by ten bound resets. */
  ghost predicate Qualified(e: Evidence, contract: Contract, fixture: Fixture, sha: Digest) {
    && (forall i | 1 <= i <= CYCLES :: ResetBound(e, contract, fixture, sha, i))
    && (forall i, j | 1 <= i < j <= CYCLES :: DifferentBoots(e, contract, fixture, i, j))
    && (forall i | 2 <= i <= CYCLES :: BootedByReset(e, contract, fixture, i))
  }

  /** Cycle `i` of the aggregate, on evidence that has it. */
  function AggregateCycle(e: Evidence, contract: Contract, fixture: Fixture, sha: Digest, i: nat): Object {
    var shot := ShotOf(e, contract, fixture, i);
    if shot.None? || e.reset(i).None? then map[] else
      shot.value.record
        ["cycle" := Int(i)]
        ["cycle_result_sha256" := Str(sha(e.result(i).value))]
        ["reset_receipt" := Obj(e.reset(i).value)]
  }

  /** Cycles 1 to n of the aggregate. */
  function AggregateCycles(e: Evidence, contract: Contract, fixture: Fixture, sha: Digest, n: nat): (r: seq<Json>)
    ensures |r| == n
    ensures forall i | 1 <= i <= n :: r[i - 1] == Obj(AggregateCycle(e, contract, fixture, sha, i))
  {
    seq(n, i requires 0 <= i < n => Obj(AggregateCycle(e, contract, fixture, sha, i + 1)))
  }

  function Unsigned(contract: Contract, fixture: Fixture, cycles: seq<Json>): Object {
    map[
      "render_aggregate_version" := Int(2),
      "contract_sha256" := Str(contract.sha256),
      "fixture_sha256" := Str(fixture.sha256),
      "poison_sha256" := Str(fixture.poison),
      "expected_output_sha256" := Str(fixture.expected),
      "requested_cycles" := Int(CYCLES),
      "completed_cycles" := Int(CYCLES),
      "cycles" := Arr(cycles),
      "cold_reset_between_cycles" := Bool(true),
      "verdict" := Str("passed"),
      "windows_launch_permitted" := Bool(true)
    ]
  }

  function Signed(unsigned: Object, sha: Digest): Object {
    unsigned["aggregate_sha256" := Str(sha(unsigned))]
  }

  predicate NoDuplicates<T(==)>(s: seq<T>) {
    forall i, j | 0 <= i < j < |s| :: s[i] != s[j]
  }

  /** `len(set(s)) == len(s)` */
  lemma {:induction false} SetSize<T>(s: seq<T>)
    ensures |set x | x in s| <= |s|
    ensures |set x | x in s| == |s| <==> NoDuplicates(s)
  {
    if s != [] {
      var init, last := s[..|s| - 1], s[|s| - 1];
      assert s == init + [last];
      SetSize(init);
      var before := set x | x in init;
      assert (set x | x in s) == before + {last};
      if last in init {
        var k :| 0 <= k < |init| && init[k] == last;
        assert before + {last} == before;
        assert s[k] == s[|s| - 1];
      } else {
        assert NoDuplicates(s) <==> NoDuplicates(init) by {
          assert forall i | 0 <= i < |init| :: init[i] == s[i] && init[i] in init;
        }
      }
    }
  }

  /** The shots of the ten cycles, in order. */
  ghost predicate Loaded(e: Evidence, contract: Contract, fixture: Fixture, loaded: seq<Shot>) {
    && |loaded| == CYCLES
    && forall i | 1 <= i <= CYCLES ::
         e.result(i).Some? && ShotOf(e, contract, fixture, i) == Some(loaded[i - 1])
  }

  /** The first loop of `aggregate_cold_render_results`: every one-shot result. */
  method LoadShots(e: Evidence, contract: Contract, fixture: Fixture) returns (loaded: Option<seq<Shot>>)
    ensures loaded.Some? <==> forall i | 1 <= i <= CYCLES :: ShotOf(e, contract, fixture, i).Some?
    ensures loaded.Some? ==> Loaded(e, contract, fixture, loaded.value)
  {
    hide ValidateOneShot;
    var shots: seq<Shot> := [];
    for index := 1 to CYCLES + 1
      invariant |shots| == index - 1
      invariant forall i | 1 <= i < index ::
        e.result(i).Some? && ShotOf(e, contract, fixture, i) == Some(shots[i - 1])
    {
      var data := e.result(index);
      if data.None? {
        assert ShotOf(e, contract, fixture, index).None?;
        return None;
      }
      var shot := ValidateOneShot(data.value, contract, fixture);
      if shot.None? {
        assert ShotOf(e, contract, fixture, index).None?;
        return None;
      }
      shots := shots + [shot.value];
    }
    return Some(shots);
  }

  /** `len(set(cookies)) == len(set(proxies)) == 10` */
  method BootsDiffer(loaded: seq<Shot>) returns (r: bool)
    requires |loaded| == CYCLES
    ensures r <==> forall i, j | 0 <= i < j < CYCLES ::
      loaded[i].cookie != loaded[j].cookie && loaded[i].proxy != loaded[j].proxy
  {
    var cookies := seq(CYCLES, i requires 0 <= i < CYCLES => loaded[i].cookie);
    var proxies := seq(CYCLES, i requires 0 <= i < CYCLES => loaded[i].proxy);
    SetSize(cookies);
    SetSize(proxies);
    r := |set c | c in cookies| == CYCLES && |set p | p in proxies| == CYCLES;
    assert forall i | 0 <= i < CYCLES :: cookies[i] == loaded[i].cookie && proxies[i] == loaded[i].proxy;
  }

  /** The second loop: each cycle to the reset before it, each reset to its cycle. */
  method BindCycles(e: Evidence, contract: Contract, fixture: Fixture, sha: Digest, loaded: seq<Shot>)
    returns (r: Option<seq<Json>>)
    requires Loaded(e, contract, fixture, loaded)
    ensures r.Some? <==>
      && (forall i | 1 <= i <= CYCLES :: ResetBound(e, contract, fixture, sha, i))
      && (forall i | 2 <= i <= CYCLES :: BootedByReset(e, contract, fixture, i))
    ensures r.Some? ==> r.value == AggregateCycles(e, contract, fixture, sha, CYCLES)
  {
    hide ShotOf, ValidReset, AggregateCycle;
    var aggregate: seq<Json> := [];
    for index := 1 to CYCLES + 1
      invariant forall i | 1 <= i < index :: ResetBound(e, contract, fixture, sha, i)
      invariant forall i | 2 <= i < index :: BootedByReset(e, contract, fixture, i)
      invariant aggregate == AggregateCycles(e, contract, fixture, sha, index - 1)
    {
      var shot := loaded[index - 1];
      if 1 < index {
        assert ResetBound(e, contract, fixture, sha, index - 1);
        var previous := e.reset(index - 1).value;
        if Get(previous, "proxy_identity") != Str(shot.proxy) || Get(previous, "boot_cookie") != Int(shot.cookie) {
          assert !BootedByReset(e, contract, fixture, index);
          return None;
        }
      }
      var receipt := e.reset(index);
      if receipt.None? || !ValidReset(receipt.value, index, contract, shot, sha(e.result(index).value)) {
        assert !ResetBound(e, contract, fixture, sha, index);
        return None;
      }
      aggregate := aggregate + [Obj(AggregateCycle(e, contract, fixture, sha, index))];
    }
    return Some(aggregate);
  }

  /** `aggregate_cold_render_results`: it succeeds exactly on qualified evidence. */
  method Aggregate(e: Evidence, contract: Contract, fixture: Fixture, sha: Digest, cycles: int) returns (r: Option<Object>)
    ensures r.Some? <==> cycles == CYCLES && Qualified(e, contract, fixture, sha)
    ensures r.Some? ==>
      r.value == Signed(Unsigned(contract, fixture, AggregateCycles(e, contract, fixture, sha, CYCLES)), sha)
  {
    hide ShotOf, ValidReset, Unsigned, AggregateCycles, BootedByReset;
    if cycles != CYCLES {
      return None;
    }
    var shots := LoadShots(e, contract, fixture);
    if shots.None? {
      var i :| 1 <= i <= CYCLES && ShotOf(e, contract, fixture, i).None?;
      assert !ResetBound(e, contract, fixture, sha, i);
      return None;
    }
    var different := BootsDiffer(shots.value);
    if !different {
      ghost var i, j :| 0 <= i < j < CYCLES
        && (shots.value[i].cookie == shots.value[j].cookie || shots.value[i].proxy == shots.value[j].proxy);
      assert !DifferentBoots(e, contract, fixture, i + 1, j + 1);
      return None;
    }
    assert forall i, j | 1 <= i < j <= CYCLES :: DifferentBoots(e, contract, fixture, i, j);
    var bound := BindCycles(e, contract, fixture, sha, shots.value);
    if bound.None? {
      return None;
    }
    return Some(Signed(Unsigned(contract, fixture, bound.value), sha));
  }

  /** In qualified evidence the boot recorded by reset `i` is the boot of cycle `i + 1` and
      of no other cycle, earlier or later: no boot is ever returned to. */
  lemma ResetBootUnique(e: Evidence, contract: Contract, fixture: Fixture, sha: Digest, i: nat, k: nat)
    requires Qualified(e, contract, fixture, sha)
    requires 1 <= i < CYCLES && 1 <= k <= CYCLES
    ensures e.reset(i).Some? && ShotOf(e, contract, fixture, k).Some?
    ensures var receipt, shot := e.reset(i).value, ShotOf(e, contract, fixture, k).value;
      && (Get(receipt, "proxy_identity") == Str(shot.proxy) <==> k == i + 1)
      && (Get(receipt, "boot_cookie") == Int(shot.cookie) <==> k == i + 1)
  {
    hide ShotOf, ValidReset;
    assert BootedByReset(e, contract, fixture, i + 1);
    assert ResetBound(e, contract, fixture, sha, k);
    if k < i + 1 {
      assert DifferentBoots(e, contract, fixture, k, i + 1);
    } else if i + 1 < k {
      assert DifferentBoots(e, contract, fixture, i + 1, k);
    }
  }

  // ---- `verify_render_gate_result` ----

  function AggregateFields(): set<string> {
    {
      "render_aggregate_version", "contract_sha256", "fixture_sha256", "poison_sha256",
      "expected_output_sha256", "requested_cycles", "completed_cycles", "cycles",
      "cold_reset_between_cycles", "verdict", "windows_launch_permitted", "aggregate_sha256"
    }
  }

  /** The checks on one aggregated cycle. */
  predicate CycleVerified(v: Json, index: nat, poison: string, expected: string) {
    && v.Obj?
    && v.fields.Keys == OneShotCycleFields() + {"cycle_result_sha256", "reset_receipt"}
    && EqInt(Get(v.fields, "cycle"), index)
    && ValidCompletion(Get(v.fields, "completion"), poison, expected)
    && Firmware(v.fields).Some?
    && "proxy_identity" in Firmware(v.fields).value && "boot_cookie" in Firmware(v.fields).value
    && Get(v.fields, "reset_receipt").Obj?
    && Get(Get(v.fields, "reset_receipt").fields, "fresh_proxy") == Bool(true)
  }

  /** Python's `==` on the values a set can hold. */
  predicate EqScalar(a: Json, b: Json) {
    a == b || (Number(a).Some? && Number(a) == Number(b))
  }

  /** `len(set(vs)) == len(vs)`; arrays and objects cannot be put in a set. */
  predicate DistinctScalars(vs: seq<Json>) {
    && (forall i | 0 <= i < |vs| :: !vs[i].Arr? && !vs[i].Obj?)
    && (forall i, j | 0 <= i < j < |vs| :: !EqScalar(vs[i], vs[j]))
  }

  /** record["snapshot"]["firmware"][field] of an aggregated cycle that has it. */
  function BootField(v: Json, field: string): Json {
    if v.Obj? && Firmware(v.fields).Some? then Get(Firmware(v.fields).value, field) else Null
  }

  function BootFields(records: seq<Json>, field: string): (r: seq<Json>)
    ensures |r| == |records|
    ensures forall i | 0 <= i < |r| :: r[i] == BootField(records[i], field)
  {
    seq(|records|, i requires 0 <= i < |records| => BootField(records[i], field))
  }

  /** The checks on the cycles of an aggregate. */
  predicate CyclesVerified(cycles: Json, poison: string, expected: string) {
    && cycles.Arr? && |cycles.items| == CYCLES
    && (forall i | 0 <= i < CYCLES :: CycleVerified(cycles.items[i], i + 1, poison, expected))
    && DistinctScalars(BootFields(cycles.items, "boot_cookie"))
    && DistinctScalars(BootFields(cycles.items, "proxy_identity"))
  }

  /** `verify_render_gate_result` returns rather than raising. */
  predicate Verified(data: Object, sha: Digest) {
    var poison, expected := Get(data, "poison_sha256"), Get(data, "expected_output_sha256");
    && data.Keys == AggregateFields()
    && Get(data, "aggregate_sha256") == Str(sha(data - {"aggregate_sha256"}))
    && EqInt(Get(data, "render_aggregate_version"), 2)
    && EqInt(Get(data, "requested_cycles"), CYCLES)
    && EqInt(Get(data, "completed_cycles"), CYCLES)
    && Get(data, "cold_reset_between_cycles") == Bool(true)
    && Get(data, "verdict") == Str("passed")
    && Get(data, "windows_launch_permitted") == Bool(true)
    && IsHash(poison)
    && IsHash(expected)
    && CyclesVerified(Get(data, "cycles"), poison.s, expected.s)
  }

  /** What a complete one-shot record brings to the verifier. */
  lemma ShotFacts(data: Object, contract: Contract, fixture: Fixture)
    requires ValidateOneShot(data, contract, fixture).Some?
    ensures var shot := ValidateOneShot(data, contract, fixture).value;
      && shot.record.Keys == OneShotCycleFields()
      && ValidCompletion(Get(shot.record, "completion"), fixture.poison, fixture.expected)
      && Firmware(shot.record).Some?
      && "proxy_identity" in Firmware(shot.record).value && "boot_cookie" in Firmware(shot.record).value
      && Get(Firmware(shot.record).value, "boot_cookie") == Int(shot.cookie)
      && Get(Firmware(shot.record).value, "proxy_identity") == Str(shot.proxy)
      && IsSha256(fixture.poison) && IsSha256(fixture.expected)
  {
    hide ValidMappings, ValidTiming;
  }

  /** Aggregating a cycle only renumbers it and adds the digest and the receipt. */
  lemma AggregateCycleKeeps(e: Evidence, contract: Contract, fixture: Fixture, sha: Digest, i: nat)
    requires ShotOf(e, contract, fixture, i).Some? && e.reset(i).Some?
    requires ShotOf(e, contract, fixture, i).value.record.Keys == OneShotCycleFields()
    ensures var cycle, shot := AggregateCycle(e, contract, fixture, sha, i), ShotOf(e, contract, fixture, i).value;
      && cycle.Keys == OneShotCycleFields() + {"cycle_result_sha256", "reset_receipt"}
      && Get(cycle, "cycle") == Int(i)
      && Get(cycle, "completion") == Get(shot.record, "completion")
      && Get(cycle, "reset_receipt") == Obj(e.reset(i).value)
      && Firmware(cycle) == Firmware(shot.record)
  {
    hide ShotOf;
  }

  lemma CycleVerifies(e: Evidence, contract: Contract, fixture: Fixture, sha: Digest, i: nat)
    requires ResetBound(e, contract, fixture, sha, i)
    ensures var cycle, shot := Obj(AggregateCycle(e, contract, fixture, sha, i)), ShotOf(e, contract, fixture, i).value;
      && CycleVerified(cycle, i, fixture.poison, fixture.expected)
      && BootField(cycle, "boot_cookie") == Int(shot.cookie)
      && BootField(cycle, "proxy_identity") == Str(shot.proxy)
  {
    hide ValidateOneShot, ValidCompletion, AggregateCycle, Get, Firmware, OneShotCycleFields;
    ShotFacts(e.result(i).value, contract, fixture);
    AggregateCycleKeeps(e, contract, fixture, sha, i);
    ReceiptFresh(e.reset(i).value, i, contract, ShotOf(e, contract, fixture, i).value, sha(e.result(i).value));
    hide ValidReset;
  }

  lemma ReceiptFresh(receipt: Object, index: nat, contract: Contract, shot: Shot, digest: string)
    requires ValidReset(receipt, index, contract, shot, digest)
    ensures Get(receipt, "fresh_proxy") == Bool(true)
  {
  }

  lemma CyclesVerify(e: Evidence, contract: Contract, fixture: Fixture, sha: Digest)
    requires Qualified(e, contract, fixture, sha)
    ensures CyclesVerified(Arr(AggregateCycles(e, contract, fixture, sha, CYCLES)), fixture.poison, fixture.expected)
  {
    hide ShotOf, ResetBound, AggregateCycle, CycleVerified, BootField;
    var records := AggregateCycles(e, contract, fixture, sha, CYCLES);
    var cookies, proxies := BootFields(records, "boot_cookie"), BootFields(records, "proxy_identity");
    forall i | 0 <= i < CYCLES
      ensures CycleVerified(records[i], i + 1, fixture.poison, fixture.expected)
      ensures var shot := ShotOf(e, contract, fixture, i + 1);
        shot.Some? && cookies[i] == Int(shot.value.cookie) && proxies[i] == Str(shot.value.proxy)
    {
      CycleVerifies(e, contract, fixture, sha, i + 1);
      assert i + 1 < CYCLES ==> DifferentBoots(e, contract, fixture, i + 1, CYCLES);
      assert i + 1 == CYCLES ==> DifferentBoots(e, contract, fixture, 1, CYCLES);
    }
    forall i, j | 0 <= i < j < CYCLES
      ensures !EqScalar(cookies[i], cookies[j]) && !EqScalar(proxies[i], proxies[j])
    {
      assert DifferentBoots(e, contract, fixture, i + 1, j + 1);
    }
  }

  lemma SignedFields(contract: Contract, fixture: Fixture, cycles: seq<Json>, sha: Digest)
    ensures var unsigned := Unsigned(contract, fixture, cycles);
      var data := Signed(unsigned, sha);
      && data.Keys == AggregateFields()
      && data - {"aggregate_sha256"} == unsigned
      && Get(data, "aggregate_sha256") == Str(sha(unsigned))
      && Get(data, "cycles") == Arr(cycles)
      && Get(data, "poison_sha256") == Str(fixture.poison)
      && Get(data, "expected_output_sha256") == Str(fixture.expected)
  {
  }

  lemma SignedVerdict(contract: Contract, fixture: Fixture, cycles: seq<Json>, sha: Digest)
    ensures var data := Signed(Unsigned(contract, fixture, cycles), sha);
      && Get(data, "render_aggregate_version") == Int(2)
      && Get(data, "requested_cycles") == Int(CYCLES)
      && Get(data, "completed_cycles") == Int(CYCLES)
      && Get(data, "cold_reset_between_cycles") == Bool(true)
      && Get(data, "verdict") == Str("passed")
      && Get(data, "windows_launch_permitted") == Bool(true)
  {
  }

  /** The verifier accepts every aggregate the aggregator can produce. */
  lemma AggregateVerifies(e: Evidence, contract: Contract, fixture: Fixture, sha: Digest)
    requires Qualified(e, contract, fixture, sha)
    ensures Verified(Signed(Unsigned(contract, fixture, AggregateCycles(e, contract, fixture, sha, CYCLES)), sha), sha)
  {
    hide ValidateOneShot, CyclesVerified, AggregateCycles, Unsigned, Signed, Get, Firmware, ValidCompletion, ValidReset,
      OneShotCycleFields, AggregateFields;
    CyclesVerify(e, contract, fixture, sha);
    assert ResetBound(e, contract, fixture, sha, 1);
    ShotFacts(e.result(1).value, contract, fixture);
    var cycles := AggregateCycles(e, contract, fixture, sha, CYCLES);
    SignedFields(contract, fixture, cycles, sha);
    SignedVerdict(contract, fixture, cycles, sha);
  }
}
