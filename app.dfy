/**
 * The chat bot of bot/app.py: `load_data` picks a reader by the file's
 * suffix and turns every failure into `None`; `respond` normalises the
 * message, answers with the first intent whose phrase list it mentions,
 * and appends the exchange to the chat history.
 *
 * The file readers, the date parser and the history's persistence are not
 * modelled: the readers and the date parser are parameters, and a reply is
 * a value that names what the text shows rather than the formatted text.
 */
module App {
  import opened Wrappers
  import opened Sequences
  import opened Text
  import opened Table
  import opened Cleaning
  import opened Metrics
  import opened Leaderboard

  // ---- Loading ----

  const DataFilename := "KPI_Report.xlsx"

  datatype FileKind = Csv | Excel | Unsupported

  /** The suffix test of `load_data`, on the lower-cased name. */
  function KindOf(filename: string): (k: FileKind)
    ensures k == Csv <==> EndsWith(Lower(filename), ".csv")
    ensures k == Unsupported <==>
      !EndsWith(Lower(filename), ".csv") && !EndsWith(Lower(filename), ".xlsx") && !EndsWith(Lower(filename), ".xls")
  {
    var name := Lower(filename);
    if EndsWith(name, ".csv") then Csv
    else if EndsWith(name, ".xlsx") || EndsWith(name, ".xls") then Excel
    else Unsupported
  }

  /** The suffix test does not see letter case. */
  lemma KindIgnoresCase(filename: string)
    ensures KindOf(Lower(filename)) == KindOf(filename)
  {
    LowerIdempotent(filename);
  }

  /** `pd.read_csv` and `pd.read_excel` on a name under the data directory; `None` when they raise. */
  datatype Disk = Disk(readCsv: string -> Option<Table>, readExcel: string -> Option<Table>)

  /** `load_data(filename)`: the reader the suffix picks; an unsupported suffix or a reader failure is `None`. */
  function LoadData(filename: string, disk: Disk): (r: Option<Table>)
    ensures KindOf(filename) == Unsupported ==> r == None
    ensures KindOf(filename) == Csv ==> r == disk.readCsv(filename)
    ensures KindOf(filename) == Excel ==> r == disk.readExcel(filename)
  {
    match KindOf(filename)
    case Csv => disk.readCsv(filename)
    case Excel => disk.readExcel(filename)
    case Unsupported => None
  }

  /** Any name ending in `.xlsx` is read as a spreadsheet. */
  lemma XlsxIsExcel(filename: string)
    requires EndsWith(filename, ".xlsx")
    ensures KindOf(filename) == Excel
  {
    LowerKeepsSuffix(filename, ".xlsx");
    var name := Lower(filename);
    assert name[|name| - 4] == 'x';
  }

  /** The data file the bot loads is read as a spreadsheet. */
  lemma DataFileIsExcel(disk: Disk)
    ensures KindOf(DataFilename) == Excel
    ensures LoadData(DataFilename, disk) == disk.readExcel(DataFilename)
  {
    assert DataFilename[10..] == ".xlsx";
    XlsxIsExcel(DataFilename);
  }

  // ---- Normalising the message ----

  predicate IsDoubleQuote(c: char) {
    c == '"'
  }

  predicate IsSingleQuote(c: char) {
    c == '\''
  }

  /** `user_message.lower().strip().strip('"').strip("'")`. */
  function Normalize(message: string): (r: string)
    ensures |r| <= |message|
    ensures forall k :: 0 <= k < |r| ==> !IsAsciiUpper(r[k])
    ensures |r| > 0 ==> !IsSingleQuote(r[0]) && !IsSingleQuote(r[|r| - 1])
  {
    var lowered := Lower(message);
    var trimmed := Strip(lowered, IsSpace);
    var unquoted := Strip(trimmed, IsDoubleQuote);
    StripNoUpper(lowered, IsSpace);
    StripNoUpper(trimmed, IsDoubleQuote);
    StripNoUpper(unquoted, IsSingleQuote);
    Strip(unquoted, IsSingleQuote)
  }

  /** Stripping a class from a string whose ends are outside it changes nothing. */
  lemma StripKeeps(s: string, junk: char -> bool)
    requires |s| > 0 ==> !junk(s[0]) && !junk(s[|s| - 1])
    ensures Strip(s, junk) == s
  {
    if |s| > 0 {
      assert LeadingRun(s, junk) == 0;
    }
  }

  /** A lower-case message with no surrounding blanks or quotes is its own normal form. */
  lemma NormalizeKeeps(message: string)
    requires forall k :: 0 <= k < |message| ==> !IsAsciiUpper(message[k])
    requires |message| > 0 ==> var a, z := message[0], message[|message| - 1];
      !IsSpace(a) && !IsSpace(z) && a != '"' && z != '"' && a != '\'' && z != '\''
    ensures Normalize(message) == message
  {
    assert Lower(message) == message;
    StripKeeps(message, IsSpace);
    StripKeeps(message, IsDoubleQuote);
    StripKeeps(message, IsSingleQuote);
  }

  // ---- Choosing the intent ----

  const ShowRowsPhrases: seq<string> := [
    "show me the first 5 rows", "show first 5 rows", "display first 5 rows", "show top 5 rows",
    "show first five rows", "show me top 5 rows", "show five rows"
  ]

  const RevenuePhrases: seq<string> := [
    "highest average daily sales", "top sales", "most sales per day", "shop with highest sales",
    "best performing shop", "shop with best sales", "top revenue", "highest revenue"
  ]

  const BayTimePhrases: seq<string> := [
    "lowest bay time", "least bay time", "bay time minimum", "minimum bay time", "shop with lowest bay time",
    "fastest bay time", "quickest bay time", "best bay time", "top bay time"
  ]

  const GrowthPhrases: seq<string> := [
    "highest growth", "yearly sales growth", "sales growth", "growth rate", "best growth", "top growth", "most growth"
  ]

  const CpdPhrases: seq<string> := [
    "highest cpd", "count per day", "cars per day", "car count", "top cpd"
  ]

  const LeaderboardPhrases: seq<string> := [
    "leaderboard", "top shops", "top performers", "best shops", "shop rankings", "shop leaderboard",
    "show rankings", "top 5 shops", "top ranked shops"
  ]

  datatype Intent = ShowRows | Revenue | LowBayTime | HighCpd | HighGrowth | Board | Fallback

  /** The intents in the order `respond` tests them. */
  const Ordered: seq<Intent> := [ShowRows, Revenue, LowBayTime, HighCpd, HighGrowth, Board]

  function Phrases(i: Intent): seq<string> {
    match i
    case ShowRows => ShowRowsPhrases
    case Revenue => RevenuePhrases
    case LowBayTime => BayTimePhrases
    case HighCpd => CpdPhrases
    case HighGrowth => GrowthPhrases
    case Board => LeaderboardPhrases
    case Fallback => []
  }

  function Rank(i: Intent): nat {
    match i
    case ShowRows => 0
    case Revenue => 1
    case LowBayTime => 2
    case HighCpd => 3
    case HighGrowth => 4
    case Board => 5
    case Fallback => 6
  }

  /** `any(phrase in message for phrase in phrases)`. */
  predicate Mentions(message: string, phrases: seq<string>) {
    exists k :: 0 <= k < |phrases| && Contains(message, phrases[k])
  }

  /** A message mentions a phrase list exactly when one of the phrases occurs in it at some offset. */
  lemma MentionsAt(message: string, phrases: seq<string>)
    ensures Mentions(message, phrases) <==> exists k, i :: 0 <= k < |phrases| && OccursAt(message, phrases[k], i)
  {
    forall k | 0 <= k < |phrases| ensures Contains(message, phrases[k]) <==> exists i :: OccursAt(message, phrases[k], i) {
      ContainsAt(message, phrases[k]);
    }
  }

  /**
   * The `if`/`elif` chain of `respond`: the first intent in `Ordered`
   * whose phrases the message mentions, or `Fallback` when it mentions none.
   */
  function SelectIntent(message: string): (i: Intent)
    ensures i != Fallback ==> Rank(i) < |Ordered| && Ordered[Rank(i)] == i && Mentions(message, Phrases(i))
    ensures forall j :: 0 <= j < Rank(i) && j < |Ordered| ==> !Mentions(message, Phrases(Ordered[j]))
  {
    if Mentions(message, ShowRowsPhrases) then ShowRows
    else if Mentions(message, RevenuePhrases) then Revenue
    else if Mentions(message, BayTimePhrases) then LowBayTime
    else if Mentions(message, CpdPhrases) then HighCpd
    else if Mentions(message, GrowthPhrases) then HighGrowth
    else if Mentions(message, LeaderboardPhrases) then Board
    else Fallback
  }

  /** Conversely, the first intent mentioned is the one chosen. */
  lemma SelectFirstMatch(message: string, j: nat)
    requires j < |Ordered| && Mentions(message, Phrases(Ordered[j]))
    requires forall i :: 0 <= i < j ==> !Mentions(message, Phrases(Ordered[i]))
    ensures SelectIntent(message) == Ordered[j]
  {
    var s := SelectIntent(message);
    assert Rank(s) <= j;
  }

  /** A message that mentions no show-rows phrase and contains `top sales` asks for revenue, whatever else it says. */
  lemma TopSalesMeansRevenue(message: string)
    requires !Mentions(message, ShowRowsPhrases)
    requires Contains(message, "top sales")
    ensures SelectIntent(message) == Revenue
  {
    assert RevenuePhrases[1] == "top sales";
  }

  /** `top sales growth` selects revenue, not growth: the revenue list is tested first. */
  lemma TopSalesGrowthExample()
    ensures SelectIntent(Normalize("top sales growth")) == Revenue
  {
    ExampleNormal("top sales growth");
    ExampleRevenue("top sales growth");
  }

  lemma ExampleNormal(m: string)
    requires m == "top sales growth"
    ensures Normalize(m) == m
  {
    assert forall k :: 0 <= k < |m| ==> !IsAsciiUpper(m[k]);
    NormalizeKeeps(m);
  }

  lemma ExampleRevenue(m: string)
    requires m == "top sales growth"
    ensures SelectIntent(m) == Revenue
  {
    assert 'f' !in m && 'm' !in m && 'i' !in m && '5' !in m;
    NoShowRows(m);
    assert m[..9] == "top sales";
    TopSalesMeansRevenue(m);
  }

  /** Every phrase asking for the first rows has an `f`, an `m`, an `i` or a `5` in it. */
  lemma NoShowRows(m: string)
    requires 'f' !in m && 'm' !in m && 'i' !in m && '5' !in m
    ensures !Mentions(m, ShowRowsPhrases)
  {
    forall k | 0 <= k < |ShowRowsPhrases| ensures !Contains(m, ShowRowsPhrases[k]) {
      var p := ShowRowsPhrases[k];
      var i := if k == 2 then 1 else if k == 3 then 9 else 5;
      assert p[i] !in m;
      ContainsNeedsChar(m, p, i);
    }
  }

  // ---- Replies ----

  /**
   * What the bot says: the failure notice, the first rows, the best shop of
   * a metric and its value, a "not available" notice, the top of the
   * leaderboard, or the overview with the table's size.
   */
  datatype Reply =
    | LoadFailed
    | FirstRows(rows: seq<Row>)
    | BestRevenue(shop: Cell, value: Option<real>)
    | BestBayTime(shop: Cell, value: Option<real>)
    | BayTimeUnavailable
    | BestCpd(shop: Cell, value: Option<real>)
    | CpdUnavailable
    | BestGrowth(shop: Cell, tag: string)
    | GrowthUnavailable
    | TopShops(board: seq<Standing>)
    | Overview(rowCount: nat, columnCount: nat)

  /** The replies whose wording does not depend on the table, and that wording. */
  function Wording(r: Reply): (s: Option<string>)
    ensures s.Some? <==> r.LoadFailed? || r.BayTimeUnavailable? || r.CpdUnavailable? || r.GrowthUnavailable?
    ensures r.LoadFailed? ==> s == Some("\U{274C} Failed to load data.")
    ensures r.BayTimeUnavailable? ==> s == Some("BayTime data is not available.")
    ensures r.CpdUnavailable? ==> s == Some("CPD data is not available.")
    ensures r.GrowthUnavailable? ==> s == Some("Sales growth data is not available.")
  {
    match r
    case LoadFailed => Some("\U{274C} Failed to load data.")
    case BayTimeUnavailable => Some("BayTime data is not available.")
    case CpdUnavailable => Some("CPD data is not available.")
    case GrowthUnavailable => Some("Sales growth data is not available.")
    case _ => None
  }

  /** The first row of an available ranking, if it has one. */
  function Top(r: Ranking): (e: Option<Entry>)
    ensures e.Some? <==> r.Ranked? && r.entries != []
    ensures e.Some? ==> e.value == r.entries[0]
  {
    if r.Ranked? && r.entries != [] then Some(r.entries[0]) else None
  }

  /** The branch of `respond` for `intent`, on the cleaned table. */
  function Dispatch(intent: Intent, df: Table): (r: Result<Reply, Failure>)
    ensures intent == Fallback ==> r == Ok(Overview(|df.rows|, |df.columns|))
    ensures intent == ShowRows ==> r == Ok(FirstRows(Head(df.rows, 5)))
  {
    match intent
    case ShowRows => Ok(FirstRows(Head(df.rows, 5)))
    case Revenue =>
      (match AnalyzeRevenue(df)
       case Err(e) => Err(e)
       case Ok(rk) => if Top(rk).Some? then Ok(BestRevenue(Top(rk).value.shop, Top(rk).value.value)) else Err(NoRows))
    case LowBayTime =>
      (match AnalyzeBayTime(df)
       case Err(e) => Err(e)
       case Ok(rk) => if Top(rk).Some? then Ok(BestBayTime(Top(rk).value.shop, Top(rk).value.value)) else Ok(BayTimeUnavailable))
    case HighCpd =>
      (match AnalyzeCpd(df)
       case Err(e) => Err(e)
       case Ok(rk) => if Top(rk).Some? then Ok(BestCpd(Top(rk).value.shop, Top(rk).value.value)) else Ok(CpdUnavailable))
    case HighGrowth =>
      (match AnalyzeGrowth(df)
       case Err(e) => Err(e)
       case Ok(g) =>
         if g.Labelled? && g.rows != [] then Ok(BestGrowth(g.rows[0].shop, g.rows[0].tag)) else Ok(GrowthUnavailable))
    case Board =>
      (match AnalyzeRevenue(df)
       case Err(e) => Err(e)
       case Ok(rev) =>
         match AnalyzeBayTime(df)
         case Err(e) => Err(e)
         case Ok(bay) =>
           match AnalyzeCpd(df)
           case Err(e) => Err(e)
           case Ok(cpd) =>
             match AnalyzeGrowth(df)
             case Err(e) => Err(e)
             case Ok(growth) =>
               match BuildLeaderboard(rev, bay, cpd, growth)
               case Err(e) => Err(e)
               case Ok(board) => Ok(TopShops(Head(board, 5))))
    case Fallback => Ok(Overview(|df.rows|, |df.columns|))
  }

  /**
   * What `respond` answers to `message` when loading gave `loaded`: the
   * failure notice if nothing loaded, whatever the message; otherwise the
   * chosen branch on the cleaned table. An exception escapes as `Err`.
   */
  function Answer(message: string, loaded: Option<Table>, toDate: Cell -> Option<int>): (r: Result<Reply, Failure>)
    ensures loaded.None? ==> r == Ok(LoadFailed)
    ensures loaded.Some? && CleanKpi(loaded.value, toDate).Err? ==> r == Err(CleanKpi(loaded.value, toDate).error)
    ensures loaded.Some? && CleanKpi(loaded.value, toDate).Ok? ==>
      r == Dispatch(SelectIntent(Normalize(message)), CleanKpi(loaded.value, toDate).value)
  {
    match loaded
    case None => Ok(LoadFailed)
    case Some(raw) =>
      match CleanKpi(raw, toDate)
      case Err(e) => Err(e)
      case Ok(df) => Dispatch(SelectIntent(Normalize(message)), df)
  }

  lemma AnswerCleanFails(message: string, raw: Table, toDate: Cell -> Option<int>)
    requires CleanKpi(raw, toDate).Err?
    ensures Answer(message, Some(raw), toDate) == Err(CleanKpi(raw, toDate).error)
  {
  }

  lemma AnswerCleans(message: string, raw: Table, toDate: Cell -> Option<int>)
    requires CleanKpi(raw, toDate).Ok?
    ensures Answer(message, Some(raw), toDate) == Dispatch(SelectIntent(Normalize(message)), CleanKpi(raw, toDate).value)
  {
  }

  /** The revenue reply names a shop with the highest mean daily sales; an empty table raises `IndexError`. */
  lemma RevenueReply(df: Table)
    requires AnalyzeRevenue(df).Ok?
    ensures var es := AnalyzeRevenue(df).value.entries;
      && (es == [] ==> Dispatch(Revenue, df) == Err(NoRows))
      && (es != [] ==> Dispatch(Revenue, df) == Ok(BestRevenue(es[0].shop, es[0].value)))
      && (forall k :: 0 <= k < |es| && es[k].value.Some? ==> es[0].value.Some? && es[0].value.value >= es[k].value.value)
  {
    var es := AnalyzeRevenue(df).value.entries;
    forall k | 0 < k < |es| && es[k].value.Some? ensures es[0].value.Some? && es[0].value.value >= es[k].value.value {
      RankedOrder(df, Cleaning.SalesPerDay, Descending, false, 0, k);
    }
  }

  /** The bay-time reply names a shop with the lowest mean, or says the data is not available. */
  lemma BayTimeReply(df: Table)
    requires AnalyzeBayTime(df).Ok?
    ensures var rk := AnalyzeBayTime(df).value;
      && (rk == Unavailable || rk == Ranked([]) <==> Dispatch(LowBayTime, df) == Ok(BayTimeUnavailable))
      && (rk.Ranked? && rk.entries != [] ==> Dispatch(LowBayTime, df) == Ok(BestBayTime(rk.entries[0].shop, rk.entries[0].value)))
      && (rk.Ranked? ==> forall k :: 0 <= k < |rk.entries| && rk.entries[k].value.Some? ==>
            rk.entries[0].value.Some? && rk.entries[0].value.value <= rk.entries[k].value.value)
  {
    var rk := AnalyzeBayTime(df).value;
    if rk.Ranked? {
      forall k | 0 < k < |rk.entries| && rk.entries[k].value.Some?
        ensures rk.entries[0].value.Some? && rk.entries[0].value.value <= rk.entries[k].value.value
      {
        RankedOrder(df, BayTime, Ascending, true, 0, k);
      }
    }
  }

  /** The CPD reply names a shop with the highest mean, or says the data is not available. */
  lemma CpdReply(df: Table)
    requires AnalyzeCpd(df).Ok?
    ensures var rk := AnalyzeCpd(df).value;
      && (rk == Unavailable || rk == Ranked([]) <==> Dispatch(HighCpd, df) == Ok(CpdUnavailable))
      && (rk.Ranked? && rk.entries != [] ==> Dispatch(HighCpd, df) == Ok(BestCpd(rk.entries[0].shop, rk.entries[0].value)))
      && (rk.Ranked? ==> forall k :: 0 <= k < |rk.entries| && rk.entries[k].value.Some? ==>
            rk.entries[0].value.Some? && rk.entries[0].value.value >= rk.entries[k].value.value)
  {
    var rk := AnalyzeCpd(df).value;
    if rk.Ranked? {
      forall k | 0 < k < |rk.entries| && rk.entries[k].value.Some?
        ensures rk.entries[0].value.Some? && rk.entries[0].value.value >= rk.entries[k].value.value
      {
        RankedOrder(df, Cpd, Descending, true, 0, k);
      }
    }
  }

  /**
   * The growth reply quotes the label of the first row, or says the data is
   * not available. The shop it names is one with the highest mean growth.
   */
  lemma GrowthReply(df: Table)
    requires AnalyzeGrowth(df).Ok?
    ensures var g := AnalyzeGrowth(df).value;
      && (g == NoGrowth || g == Labelled([]) <==> Dispatch(HighGrowth, df) == Ok(GrowthUnavailable))
      && (g.Labelled? && g.rows != [] ==> Dispatch(HighGrowth, df) == Ok(BestGrowth(g.rows[0].shop, g.rows[0].tag)))
      && (g.Labelled? && g.rows != [] ==> Leads(df, Cleaning.NetSalesYoy, g.rows[0].shop))
  {
    var g := AnalyzeGrowth(df).value;
    if g.Labelled? && g.rows != [] {
      var es := Aggregate(df, Cleaning.NetSalesYoy, Descending, true).value.entries;
      assert g.rows == LabelRows(es);
      FirstLeads(df, Cleaning.NetSalesYoy, true);
    }
  }

  /**
   * When the four aggregates exist, the leaderboard fails exactly when one
   * of the guarded columns is absent: `count_top` finds no `Shop` column
   * in the empty frame. Otherwise it shows the first five standings.
   */
  lemma LeaderboardReply(df: Table)
    requires AnalyzeRevenue(df).Ok? && AnalyzeBayTime(df).Ok? && AnalyzeCpd(df).Ok? && AnalyzeGrowth(df).Ok?
    ensures Dispatch(Board, df).Err? <==> BayTime !in df.columns || Cpd !in df.columns || Cleaning.NetSalesYoy !in df.columns
    ensures Dispatch(Board, df).Err? ==> Dispatch(Board, df).error == MissingColumn(ShopColumn)
    ensures Dispatch(Board, df).Ok? ==>
      Dispatch(Board, df).value == TopShops(Head(BuildLeaderboard(AnalyzeRevenue(df).value, AnalyzeBayTime(df).value,
                                                                  AnalyzeCpd(df).value, AnalyzeGrowth(df).value).value, 5))
  {
  }

  // ---- The chat history ----

  datatype Turn = User(text: string) | Assistant(reply: Reply)

  /** The caller's history list, which `respond` appends to in place. */
  class ChatLog {
    var turns: seq<Turn>

    constructor ()
      ensures turns == []
    {
      turns := [];
    }
  }

  lemma AppendTwo<T>(s: seq<T>, x: T, y: T)
    ensures s + [x] + [y] == s + [x, y]
  {
  }

  /** Cleans the loaded table in place, then answers the message from it. */
  method Process(message: string, raw: Table, toDate: Cell -> Option<int>) returns (outcome: Result<Reply, Failure>)
    ensures outcome == Answer(message, Some(raw), toDate)
  {
    var frame := new Frame(raw.columns, raw.rows);
    var cleaned := CleanAndProcess(frame, toDate);
    if cleaned.Err? {
      outcome := Err(cleaned.error);
      AnswerCleanFails(message, raw, toDate);
    } else {
      var df := cleaned.value.Value();
      outcome := Dispatch(SelectIntent(Normalize(message)), df);
      AnswerCleans(message, raw, toDate);
    }
  }

  /**
   * `respond(message, history)`. A missing history (`null`) is replaced by
   * a new empty one; a non-list history lies outside the type. The data file
   * (`load_data`'s default name unless another is given) is loaded and
   * cleaned; the reply is `Answer`'s; then the user's original message and the reply are appended,
   * in that order, and nothing else in the history changes. When an
   * exception escapes, nothing is appended.
   */
  method Respond(message: string, history: ChatLog?, disk: Disk, toDate: Cell -> Option<int>,
                 filename: string := DataFilename)
    returns (outcome: Result<Reply, Failure>, log: ChatLog)
    modifies history
    ensures outcome == Answer(message, LoadData(filename, disk), toDate)
    ensures history != null ==> log == history
    ensures history == null ==> fresh(log)
    ensures var before := if history != null then old(history.turns) else [];
      log.turns == if outcome.Ok? then before + [User(message), Assistant(outcome.value)] else before
  {
    if history == null {
      log := new ChatLog();
    } else {
      log := history;
    }
    var loaded := LoadData(filename, disk);
    if loaded.None? {
      outcome := Ok(LoadFailed);
    } else {
      outcome := Process(message, loaded.value, toDate);
    }
    if outcome.Err? {
      return;
    }
    ghost var before := log.turns;
    log.turns := log.turns + [User(message)];
    log.turns := log.turns + [Assistant(outcome.value)];
    AppendTwo(before, User(message), Assistant(outcome.value));
  }
}
