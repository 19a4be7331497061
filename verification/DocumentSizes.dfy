/** The documents of real tests are within what the theorems about the protocol assume. */
module DocumentSizes {
  import opened Bytes
  import opened JsonString
  import opened JsonText
  import opened JsonGrammar
  import opened Framing
  import opened ControlProtocol
  import opened ControlInvariant
  import opened ResultsExchange
  import opened ResultsDocument

  const LONGEST_KEY := 24
  const LONGEST_STRING := 16
  const MEMBER_SIZE := 256
  const ROW_SIZE := 2562

  lemma {:induction false} EscapedAtMost(t: Text)
    ensures |Escaped(t)| <= 6 * |t|
  {
    if t != [] {
      var us := UnitsOf(t);
      assert us[0] == UnitOf(t[0]) && us[1..] == UnitsOf(t[1..]);
      EscapedAtMost(t[1..]);
    }
  }

  /** A number, a flag or a short string under a short key. */
  predicate Plain(m: Member) {
    && |m.key| <= LONGEST_KEY && NulFree(m.key)
    && Printable(m.value) && !m.value.Array? && !m.value.Object?
    && (m.value.String? ==> |m.value.s| <= LONGEST_STRING)
  }

  predicate AllPlain(ms: seq<Member>) { forall i :: 0 <= i < |ms| ==> Plain(ms[i]) }

  /** The room that members take, whatever they are: their values' texts, and their keys as if all were escaped. */
  ghost function Room(ms: seq<Member>, depth: nat): nat
    requires AllPrintable(ms)
  {
    if ms == [] then 0 else 6 * |ms[0].key| + |Render(ms[0].value, false, depth)| + 4 + Room(ms[1..], depth)
  }

  lemma MemberSize(m: Member, depth: nat, last: bool)
    requires NulFree(m.key) && Printable(m.value)
    ensures |RenderMember(m, false, depth, last)| <= 6 * |m.key| + |Render(m.value, false, depth)| + 4
  {
    hide Escaped, Render, Printable;
    EscapedAtMost(m.key);
  }

  /** Members add at most their room to what follows them. */
  lemma {:induction false} MembersSize(ms: seq<Member>, tail: seq<Member>, depth: nat)
    requires AllPrintable(ms) && depth > 0 && AllPrintable(tail)
    ensures AllPrintable(ms + tail)
    ensures |RenderMembers(ms + tail, false, depth)| <= Room(ms, depth) + |RenderMembers(tail, false, depth)|
    decreases |ms|
  {
    hide RenderMember, Render, Printable;
    if ms == [] {
      assert ms + tail == tail;
    } else {
      var all := ms + tail;
      assert all[1..] == ms[1..] + tail && all[0] == ms[0];
      MembersSize(ms[1..], tail, depth);
      MemberSize(ms[0], depth, |all| == 1);
    }
  }

  /** A plain member takes a bounded room. */
  lemma {:induction false} PlainRoom(ms: seq<Member>, depth: nat)
    requires AllPlain(ms)
    ensures AllPrintable(ms) && Room(ms, depth) <= MEMBER_SIZE * |ms|
  {
    hide Escaped, StrtodLength, NumberOf;
    if ms != [] {
      PlainRoom(ms[1..], depth);
      var v := ms[0].value;
      if v.Number? { IntegerConverts(v.n); }
      if v.String? { EscapedAtMost(v.s); }
    }
  }

  lemma PlainMembersSize(ms: seq<Member>, tail: seq<Member>, depth: nat)
    requires AllPlain(ms) && depth > 0 && AllPrintable(tail)
    ensures AllPrintable(ms + tail)
    ensures |RenderMembers(ms + tail, false, depth)| <= MEMBER_SIZE * |ms| + |RenderMembers(tail, false, depth)|
  {
    hide RenderMembers, Plain, Room;
    PlainRoom(ms, depth);
    MembersSize(ms, tail, depth);
  }

  /** Members that can be printed and nest little enough for an object's. */
  ghost predicate Fit(ms: seq<Member>) { AllPrintable(ms) && MembersNest(ms, NESTING_LIMIT - 1) }

  lemma EndSize(depth: nat)
    requires depth > 0
    ensures |RenderMembers([], false, depth)| == 1
  {
  }

  lemma PlainNests(ms: seq<Member>, limit: nat)
    requires AllPlain(ms)
    ensures MembersNest(ms, limit)
  {
  }

  // ------------------------------------------------------------------------- results

  /** The numbers of a row are within what is printed exactly. */
  predicate RowFits(row: Row) {
    Full(row) && forall i :: 0 <= i < |NAMES| ==> Printable(RowMembers(row)[i].value)
  }

  predicate AllFit(rows: seq<Row>) { forall i :: 0 <= i < |rows| ==> RowFits(rows[i]) }

  lemma KeyNulFree(name: string)
    requires forall i :: 0 <= i < |name| ==> 0 < name[i] as int < 256
    ensures NulFree(Ascii(name))
  {
  }

  lemma NamesPlain(i: nat)
    requires i < |NAMES|
    ensures |Ascii(NAMES[i])| <= LONGEST_KEY && NulFree(Ascii(NAMES[i]))
  {
    KeyNulFree(NAMES[i]);
  }

  lemma RowSize(row: Row, depth: nat)
    requires RowFits(row)
    ensures Printable(Object(RowMembers(row))) && NestsWithin(Object(RowMembers(row)), NESTING_LIMIT - 2)
    ensures |Render(Object(RowMembers(row)), false, depth)| <= ROW_SIZE
  {
    hide RenderMembers, NumberText, Ascii;
    var ms := RowMembers(row);
    forall i | 0 <= i < |ms| ensures Plain(ms[i]) {
      NamesPlain(i);
    }
    PlainMembersSize(ms, [], depth + 1);
    assert ms + [] == ms;
    EndSize(depth + 1);
    PlainNests(ms, NESTING_LIMIT - 3);
  }

  lemma {:induction false} ItemsSize(items: seq<Json>, depth: nat)
    requires forall i :: 0 <= i < |items| ==> Printable(items[i]) && |Render(items[i], false, depth)| <= ROW_SIZE
    ensures |RenderItems(items, false, depth)| <= (ROW_SIZE + 1) * |items| + 1
    decreases |items|
  {
    hide Render, Printable;
    if items != [] {
      ItemsSize(items[1..], depth);
    }
  }

  /** Every results document for up to 800,000 streams fits, with up to fifty million bytes in front of them, such as the
      server's own output. */
  lemma ResultsFit(head: seq<Member>, rows: seq<Row>)
    requires Fit(head) && Room(head, 1) <= 50_000_000 && AllFit(rows) && |rows| <= 800_000
    ensures AllFull(rows) && Fits(ResultsJson(head, rows), 0)
  {
    hide RenderMembers, RenderItems, NumberText, Ascii, RowMembers, Escaped, Room;
    var items := RowItems(rows);
    forall i | 0 <= i < |items|
      ensures Printable(items[i]) && NestsWithin(items[i], NESTING_LIMIT - 2) && |Render(items[i], false, 2)| <= ROW_SIZE
    {
      RowSize(rows[i], 2);
    }
    ItemsSize(items, 2);
    var last := Member(Ascii("streams"), Array(items));
    StreamsSize(last);
    MembersSize(head, [last], 1);
    assert ItemsNest(items, NESTING_LIMIT - 2);
    FitJoin(head, [last]);
  }

  lemma FitJoin(a: seq<Member>, b: seq<Member>)
    requires Fit(a) && Fit(b)
    ensures Fit(a + b)
  {
  }

  /** The last member: its key, a colon, the array, and the brace behind it. */
  lemma StreamsSize(m: Member)
    requires m.key == Ascii("streams") && Printable(m.value)
    ensures AllPrintable([m])
    ensures |RenderMembers([m], false, 1)| <= |Render(m.value, false, 1)| + 60
  {
    hide Render, Printable, Escaped;
    KeyNulFree("streams");
    EscapedAtMost(m.key);
    assert [m][1..] == [];
  }

  // ------------------------------------------------------------------------- whole tests

  lemma PlainFits(ms: seq<Member>)
    requires AllPlain(ms)
    ensures Fit(ms)
  {
  }

  /** The parameters fit if what is besides the terms takes up to 7000 bytes. */
  lemma ParamsFit(cfg: Config)
    requires cfg.terms.streams <= EXACT && cfg.terms.tos <= EXACT && Fit(cfg.before) && Fit(cfg.between) && Fit(cfg.after)
    requires Room(cfg.before, 1) + Room(cfg.between, 1) + Room(cfg.after, 1) <= 7000
    ensures Fits(ParamsOf(cfg), MAX_PARAMS_JSON_STRING)
  {
    hide Ascii, NumberText, RenderMembers, Room, Plain;
    var first, second := TermMembers(cfg.terms);
    var ms := ParamsOf(cfg).members;
    var e := cfg.after + [];
    var d := second + e;
    var c := cfg.between + d;
    var b := first + c;
    assert ms == cfg.before + b;
    EndSize(1);
    MembersSize(cfg.after, [], 1);
    PlainMembersSize(second, e, 1);
    MembersSize(cfg.between, d, 1);
    PlainMembersSize(first, c, 1);
    MembersSize(cfg.before, b, 1);
    PlainFits(first);
    PlainFits(second);
    FitJoin(cfg.after, []);
    FitJoin(second, e);
    FitJoin(cfg.between, d);
    FitJoin(first, c);
    FitJoin(cfg.before, b);
  }

  /** The members for the terms, in front of the others and behind them. */
  lemma TermMembers(terms: Terms) returns (first: seq<Member>, second: seq<Member>)
    requires terms.streams <= EXACT && terms.tos <= EXACT
    ensures first == [Member(KEY_PARALLEL, Number(terms.streams))]
                     + (if terms.reverse then [Member(KEY_REVERSE, Bool(true))] else [])
                     + (if terms.bidirectional then [Member(KEY_BIDIRECTIONAL, Bool(true))] else [])
    ensures second == if terms.tos != 0 then [Member(KEY_TOS, Number(terms.tos))] else []
    ensures AllPlain(first) && AllPlain(second) && |first| <= 3 && |second| <= 1
  {
    hide Ascii, NumberText;
    KeyNulFree("parallel");
    KeyNulFree("reverse");
    KeyNulFree("bidirectional");
    KeyNulFree("TOS");
    first := [Member(KEY_PARALLEL, Number(terms.streams))]
             + (if terms.reverse then [Member(KEY_REVERSE, Bool(true))] else [])
             + (if terms.bidirectional then [Member(KEY_BIDIRECTIONAL, Bool(true))] else []);
    second := if terms.tos != 0 then [Member(KEY_TOS, Number(terms.tos))] else [];
  }

  /** A test whose parameters besides the terms take up to 7000 bytes, and whose results are documents as `send_results`
      writes them, with up to fifty million bytes besides the streams, meets the assumption of the theorems. */
  lemma RealTestsQualify(cfg: Config, clientHead: seq<Member>, clientRows: seq<Row>, serverHead: seq<Member>,
                         serverRows: seq<Row>)
    requires |cfg.cookie| == COOKIE_SIZE && TermsClear(cfg) && cfg.terms.streams <= EXACT && cfg.terms.tos <= EXACT
    requires Fit(cfg.before) && Fit(cfg.between) && Fit(cfg.after)
    requires Room(cfg.before, 1) + Room(cfg.between, 1) + Room(cfg.after, 1) <= 7000
    requires Fit(clientHead) && Room(clientHead, 1) <= 50_000_000 && AllFit(clientRows) && |clientRows| <= 800_000
    requires Fit(serverHead) && Room(serverHead, 1) <= 50_000_000 && AllFit(serverRows) && |serverRows| <= 800_000
    requires AllFull(clientRows) && cfg.clientResults == ResultsJson(clientHead, clientRows)
    requires AllFull(serverRows) && cfg.serverResults == ResultsJson(serverHead, serverRows)
    ensures ConfigOk(cfg)
  {
    hide Ascii, NumberText, Fits, RowFits, TermsClear, ResultsJson, Room, Fit;
    ResultsFit(clientHead, clientRows);
    ResultsFit(serverHead, serverRows);
    ParamsFit(cfg);
  }

  /** 0.5 */
  const HALF: Figure := Decimal([48, 46, 53])

  lemma HalfPrints()
    ensures Printable(HALF)
  {
    var t: Text := [48, 46, 53];
    assert DigitsEnd(t, 3) == 3 && DigitsEnd(t, 2) == 3 && DigitsEnd(t, 1) == 1 && DigitsEnd(t, 0) == 1;
    assert !IsDigit(t[1]);
  }

  const HEAD_NAMES: seq<string> := ["cpu_util_total", "cpu_util_user", "cpu_util_system", "sender_has_retransmits"]

  function SomeHead(): seq<Member> {
    [Member(Ascii(HEAD_NAMES[0]), HALF), Member(Ascii(HEAD_NAMES[1]), HALF), Member(Ascii(HEAD_NAMES[2]), HALF),
     Member(Ascii(HEAD_NAMES[3]), Number(1))]
  }

  lemma {:induction false} LookupAbsent(ms: seq<Member>, key: Text)
    requires forall i :: 0 <= i < |ms| ==> |ms[i].key| != |key|
    ensures Absent(ms, key)
  {
    if ms != [] {
      LookupAbsent(ms[1..], key);
    }
  }

  lemma SomeHeadOk()
    ensures HeadOk(SomeHead()) && AllPlain(SomeHead())
  {
    hide SameKey, Lookup, NumberText;
    HalfPrints();
    var head := SomeHead();
    LookupAbsent(head, Ascii("streams"));
    forall i, j | 0 <= i < j < |head| ensures !SameKey(head[i].key, head[j].key) {
      KeysDiffer(HEAD_NAMES[i], HEAD_NAMES[j]);
    }
    forall i | 0 <= i < |head| ensures FigureIn(Object(head), Ascii(HEAD_NAMES[i])).Some? && NulFree(Ascii(HEAD_NAMES[i])) {
      LookupAt(head, i);
      KeyNulFree(HEAD_NAMES[i]);
    }
  }

  /** And there are such tests: one stream, half a percent of processor time, half a millisecond of jitter. */
  lemma TestsExist(cookie: Text, whole: Text -> int) returns (cfg: Config)
    requires |cookie| == COOKIE_SIZE
    ensures cfg.cookie == cookie && cfg.terms.streams == 1 && ConfigOk(cfg)
    ensures RowsIn(cfg.clientResults, whole).Some? && RowsIn(cfg.serverResults, whole).Some?
  {
    hide NumberText, Ascii, RowsIn, ConfigOk, HeadOk, AllPlain;
    var row := Row(1, 131072, 0, HALF, 0, 0, Some(Omitted(0, 0)), Some(Times(NO_TIME, HALF)));
    HalfPrints();
    SomeHeadOk();
    var results := ResultsJson(SomeHead(), [row]);
    cfg := Config(cookie, Terms(1, false, false, 0), [], [], [], results, results, true);
    NothingFits();
    PlainRoom(SomeHead(), 1);
    PlainFits(SomeHead());
    RealTestsQualify(cfg, SomeHead(), [row], SomeHead(), [row]);
    DocumentRoundTrip(SomeHead(), [row], whole);
  }

  lemma NothingFits()
    ensures Fit([]) && Room([], 1) == 0 && forall key :: Absent([], key)
  {
  }
}
