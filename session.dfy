/**
 * The session log `st.session_state.logs` and the submit handler.
 *
 * The log is created empty once per session (app.py lines 48-49). A
 * submitted, non-empty command is interpreted; unless the reply counts as a
 * failure, its row is put in FRONT of the log (app.py line 74), so the log
 * reads newest first. The dashboard figures are recomputed from the log
 * whenever it is shown (app.py lines 81, 82 and 87).
 */
module Session {
  import opened Interpreter
  import opened Events

  /** The events of `h` (oldest first) in the order the log shows them: newest first. */
  function NewestFirst(h: seq<Event>): (r: seq<Event>)
    ensures |r| == |h|
  {
    if h == [] then [] else NewestFirst(h[1..]) + [h[0]]
  }

  /** The log shows the k-th newest recorded row at index k. */
  lemma {:induction false} NewestFirstAt(h: seq<Event>, k: nat)
    requires k < |h|
    ensures NewestFirst(h)[k] == h[|h| - 1 - k]
    decreases |h|
  {
    if k < |h| - 1 {
      NewestFirstAt(h[1..], k);
    }
  }

  /** Recording a row puts it in front of the rows already shown. */
  lemma {:induction false} NewestFirstRecord(h: seq<Event>, e: Event)
    ensures NewestFirst(h + [e]) == [e] + NewestFirst(h)
    decreases |h|
  {
    if h == [] {
      assert [] + [e] == [e];
    } else {
      assert (h + [e])[0] == h[0];
      assert (h + [e])[1..] == h[1..] + [e];
      NewestFirstRecord(h[1..], e);
    }
  }

  /** The Narcotics figure is the same over the newest-first log as over the rows in the order recorded. */
  lemma {:induction false} NarcoticSumNewestFirst(h: seq<Event>)
    ensures NarcoticSum(NewestFirst(h)) == NarcoticSum(h)
    decreases |h|
  {
    if h != [] {
      NarcoticSumConcat(NewestFirst(h[1..]), [h[0]]);
      NarcoticSumNewestFirst(h[1..]);
      NarcoticSumFront(h);
    }
  }

  /** The Critical Events figure is the same over the newest-first log as over the rows in the order recorded. */
  lemma {:induction false} CriticalCountNewestFirst(h: seq<Event>)
    ensures CriticalCount(NewestFirst(h)) == CriticalCount(h)
    decreases |h|
  {
    if h != [] {
      CriticalCountConcat(NewestFirst(h[1..]), [h[0]]);
      CriticalCountNewestFirst(h[1..]);
      CriticalCountFront(h);
    }
  }

  /** The three figures of the dashboard. */
  datatype Metrics = Metrics(narcotics: int, criticalEvents: nat, total: nat)

  class SessionLog {
    /** The rows as the dashboard shows them, newest first. */
    var logs: seq<Event>
    /** Every row recorded in this session, oldest first. */
    ghost var history: seq<Event>

    ghost predicate Valid()
      reads this
    {
      logs == NewestFirst(history)
    }

    /** A new session starts with an empty log. */
    constructor ()
      ensures Valid() && logs == [] && history == []
    {
      logs := [];
      history := [];
    }

    /** `pd.concat([new_row, logs])`: the new row goes in front, the old rows follow in their order. */
    method Record(e: Event)
      requires Valid()
      modifies this
      ensures Valid()
      ensures logs == [e] + old(logs)
      ensures history == old(history) + [e]
    {
      NewestFirstRecord(history, e);
      logs := [e] + logs;
      history := history + [e];
    }

    /**
     * The Submit handler (app.py lines 59-75). An empty command is not
     * interpreted. A reply that counts as a failure records nothing; any
     * other reply records exactly one row, built from it and stamped `now`.
     */
    method Submit(command: string, secrets: map<string, string>,
                  generate: (string, string) -> Generated, decode: string -> Decoded,
                  now: string) returns (recorded: bool)
      requires Valid()
      modifies this
      ensures Valid()
      ensures recorded <==> command != [] && !IsFailure(Interpret(secrets, command, generate, decode))
      ensures recorded ==> var e := NewRow(AsDict(Interpret(secrets, command, generate, decode)), now);
                           logs == [e] + old(logs) && history == old(history) + [e]
      ensures !recorded ==> logs == old(logs) && history == old(history)
    {
      recorded := false;
      if command != [] {
        var result := Interpret(secrets, command, generate, decode);
        if !IsFailure(result) {
          var row := NewRow(AsDict(result), now);
          Record(row);
          recorded := true;
        }
      }
    }

    /**
     * The dashboard figures, recomputed from the rows. They agree with the
     * same figures taken over the rows in the order they were recorded, and
     * the total is the number of rows recorded in this session.
     */
    method Dashboard() returns (m: Metrics)
      requires Valid()
      ensures m.narcotics == NarcoticSum(logs) == NarcoticSum(history)
      ensures m.criticalEvents == CriticalCount(logs) == CriticalCount(history)
      ensures m.total == TotalCount(logs) == |history|
      ensures m.criticalEvents <= m.total
    {
      NarcoticSumNewestFirst(history);
      CriticalCountNewestFirst(history);
      m := Metrics(NarcoticSum(logs), CriticalCount(logs), TotalCount(logs));
    }
  }

  const FentanylFields: Dict :=
    map[ItemKey := JString("Fentanyl"), QtyKey := JInt(50), UnitKey := JString("mcg"), CategoryKey := JString(Narcotic)]

  /** "Give Fentanyl 50 mcg", decoded as a Narcotic item of 50 mcg, is accepted and makes one Narcotic row of 50. */
  lemma FentanylRow(now: string)
    ensures !IsFailure(Parsed(FentanylFields))
    ensures NewRow(AsDict(Parsed(FentanylFields)), now)
            == Event(now, JString("Fentanyl"), JInt(50), JString("mcg"), JString(Narcotic))
    ensures var rows := [NewRow(FentanylFields, now)];
            NarcoticSum(rows) == 50 && CriticalCount(rows) == 0 && TotalCount(rows) == 1
  {
    var e := NewRow(FentanylFields, now);
    NarcoticSumRecord(e, []);
    CriticalCountRecord(e, []);
    assert [e] + [] == [e];
  }

  /**
   * The two worked examples on a fresh session: "Give Fentanyl 50 mcg",
   * decoded as a Narcotic item of 50 mcg, records one row and the Narcotics
   * figure becomes 50; "BP Drop" without the credential records nothing.
   * The decoder stands in for `json.loads` on the model's answer, so the
   * answer's text is not examined here (`FencedReplyDecodesPayload` covers
   * the cleaning of a fenced answer).
   */
  method Scenario(now: string)
  {
    var log := new SessionLog();
    var generate := (key: string, command: string) => Text("{\"item\": \"Fentanyl\", \"qty\": 50, \"unit\": \"mcg\", \"cat\": \"Narcotic\"}");
    var decode := (text: string) => Decoded(FentanylFields);
    var secrets := map[ApiKeyName := "secret"];

    FentanylRow(now);
    assert Interpret(secrets, "Give Fentanyl 50 mcg", generate, decode) == Parsed(FentanylFields);
    var recorded := log.Submit("Give Fentanyl 50 mcg", secrets, generate, decode, now);
    assert recorded;
    var m := log.Dashboard();
    assert m.narcotics == 50 && m.criticalEvents == 0 && m.total == 1;

    recorded := log.Submit("BP Drop", map[], generate, decode, now);
    assert !recorded;
    m := log.Dashboard();
    assert m.narcotics == 50 && m.total == 1;
  }
}
