/** The visitor webhook: POST normalises an arbitrary JSON body into one
    17-column `visitantes_site` row and answers with the store's outcome;
    OPTIONS answers the CORS preflight. The store, the UUID generator and the
    clock are parameters. */
module Webhook {
  import opened Json

  // ---------------------------------------------------------------------
  // Fallback chains: `body.k1 || body.k2 || ... || default`
  // ---------------------------------------------------------------------

  /** Candidate `i` is the first truthy one in `keys`. */
  predicate IsFirstTruthyAt(body: Json, keys: seq<string>, i: int)
    requires !body.JNull?
  {
    && 0 <= i < |keys|
    && TruthyAt(body, keys[i])
    && forall j :: 0 <= j < i ==> !TruthyAt(body, keys[j])
  }

  /** What a `||` chain over `keys` ending in the literal `default` yields:
      the value of the first candidate whose value is truthy, and the
      default when there is none. */
  ghost predicate PicksFirstTruthy(body: Json, keys: seq<string>, default: Json, v: Json)
    requires !body.JNull?
  {
    || (exists i :: IsFirstTruthyAt(body, keys, i) && Member(body, keys[i]) == Some(v))
    || ((forall i :: 0 <= i < |keys| ==> !TruthyAt(body, keys[i])) && v == default)
  }

  /** The `||` chain itself, evaluated left to right. */
  function FirstTruthy(body: Json, keys: seq<string>, default: Json): (r: Json)
    requires !body.JNull?
    ensures r == default || (Truthy(r) && exists i :: 0 <= i < |keys| && Member(body, keys[i]) == Some(r))
    ensures (forall i :: 0 <= i < |keys| ==> !TruthyAt(body, keys[i])) ==> r == default
    decreases |keys|
  {
    if keys == [] then default
    else if TruthyAt(body, keys[0]) then Member(body, keys[0]).value
    else FirstTruthy(body, keys[1..], default)
  }

  /** The chain yields the first truthy candidate, or the default. */
  lemma {:induction false} FirstTruthyPicksFirst(body: Json, keys: seq<string>, default: Json)
    requires !body.JNull?
    ensures PicksFirstTruthy(body, keys, default, FirstTruthy(body, keys, default))
    decreases |keys|
  {
    var r := FirstTruthy(body, keys, default);
    if keys == [] {
    } else if TruthyAt(body, keys[0]) {
      assert IsFirstTruthyAt(body, keys, 0);
    } else {
      FirstTruthyPicksFirst(body, keys[1..], default);
      if i :| IsFirstTruthyAt(body, keys[1..], i) && Member(body, keys[1..][i]) == Some(r) {
        assert IsFirstTruthyAt(body, keys, i + 1);
      } else {
        assert forall i :: 1 <= i < |keys| ==> keys[i] == keys[1..][i - 1];
      }
    }
  }

  /** The chain's value is determined: PicksFirstTruthy holds of one value only. */
  lemma PicksFirstTruthyUnique(body: Json, keys: seq<string>, default: Json, v: Json, w: Json)
    requires !body.JNull?
    requires PicksFirstTruthy(body, keys, default, v)
    requires PicksFirstTruthy(body, keys, default, w)
    ensures v == w
  {
    if i :| IsFirstTruthyAt(body, keys, i) && Member(body, keys[i]) == Some(v) {
      var j :| IsFirstTruthyAt(body, keys, j) && Member(body, keys[j]) == Some(w);
      assert !(i < j) && !(j < i);
    }
  }

  // ---------------------------------------------------------------------
  // The normalised record
  // ---------------------------------------------------------------------

  const BlogUrl: string := "https://blog.grandeflorianopolis.autofacilpagamentos.com.br/"
  const HomePage: string := "Página inicial"

  /** One `visitantes_site` row. Every field holds whatever JSON value the
      chain picked: the payload's values are not coerced. */
  datatype VisitorRecord = VisitorRecord(
    id: Json,
    urlOrigem: Json,
    ipVisitante: Json,
    userAgent: Json,
    paginaVisitada: Json,
    tempoPermanencia: Json,
    origemTrafego: Json,
    campanha: Json,
    meio: Json,
    termo: Json,
    dispositivo: Json,
    navegador: Json,
    localizacao: Json,
    converteu: Json,
    acaoRealizada: Json,
    timestampVisita: Json,
    criadoEm: Json)

  /** Every payload key any chain reads. */
  const CandidateKeys: set<string> := {
    "id", "url", "page_url", "ip", "visitor_ip", "user_agent", "userAgent",
    "page", "page_title", "title", "time_spent", "duration", "source",
    "traffic_source", "utm_source", "campaign", "utm_campaign", "medium",
    "utm_medium", "term", "utm_term", "device", "device_type", "browser",
    "location", "city", "converted", "action", "event", "timestamp" }

  /** The record built from a non-null body; `uuid` stands for
      `crypto.randomUUID()` and `now` for `new Date().toISOString()`. */
  function Normalize(body: Json, uuid: string, now: string): (r: VisitorRecord)
    requires !body.JNull?
    ensures PicksFirstTruthy(body, ["id"], JStr(uuid), r.id)
    ensures PicksFirstTruthy(body, ["url", "page_url"], JStr(BlogUrl), r.urlOrigem)
    ensures PicksFirstTruthy(body, ["ip", "visitor_ip"], JStr("N/A"), r.ipVisitante)
    ensures PicksFirstTruthy(body, ["user_agent", "userAgent"], JStr("N/A"), r.userAgent)
    ensures PicksFirstTruthy(body, ["page", "page_title", "title"], JStr(HomePage), r.paginaVisitada)
    ensures PicksFirstTruthy(body, ["time_spent", "duration"], JNum(0.0), r.tempoPermanencia)
    ensures PicksFirstTruthy(body, ["source", "traffic_source", "utm_source"], JStr("direto"), r.origemTrafego)
    ensures PicksFirstTruthy(body, ["campaign", "utm_campaign"], JNull, r.campanha)
    ensures PicksFirstTruthy(body, ["medium", "utm_medium"], JNull, r.meio)
    ensures PicksFirstTruthy(body, ["term", "utm_term"], JNull, r.termo)
    ensures PicksFirstTruthy(body, ["device", "device_type"], JStr("desktop"), r.dispositivo)
    ensures PicksFirstTruthy(body, ["browser"], JStr("N/A"), r.navegador)
    ensures PicksFirstTruthy(body, ["location", "city"], JStr("N/A"), r.localizacao)
    ensures PicksFirstTruthy(body, ["converted"], JBool(false), r.converteu)
    ensures PicksFirstTruthy(body, ["action", "event"], JStr("visualizacao"), r.acaoRealizada)
    ensures PicksFirstTruthy(body, ["timestamp"], JStr(now), r.timestampVisita)
    ensures r.criadoEm == JStr(now)
  {
    FirstTruthyPicksFirst(body, ["id"], JStr(uuid));
    FirstTruthyPicksFirst(body, ["url", "page_url"], JStr(BlogUrl));
    FirstTruthyPicksFirst(body, ["ip", "visitor_ip"], JStr("N/A"));
    FirstTruthyPicksFirst(body, ["user_agent", "userAgent"], JStr("N/A"));
    FirstTruthyPicksFirst(body, ["page", "page_title", "title"], JStr(HomePage));
    FirstTruthyPicksFirst(body, ["time_spent", "duration"], JNum(0.0));
    FirstTruthyPicksFirst(body, ["source", "traffic_source", "utm_source"], JStr("direto"));
    FirstTruthyPicksFirst(body, ["campaign", "utm_campaign"], JNull);
    FirstTruthyPicksFirst(body, ["medium", "utm_medium"], JNull);
    FirstTruthyPicksFirst(body, ["term", "utm_term"], JNull);
    FirstTruthyPicksFirst(body, ["device", "device_type"], JStr("desktop"));
    FirstTruthyPicksFirst(body, ["browser"], JStr("N/A"));
    FirstTruthyPicksFirst(body, ["location", "city"], JStr("N/A"));
    FirstTruthyPicksFirst(body, ["converted"], JBool(false));
    FirstTruthyPicksFirst(body, ["action", "event"], JStr("visualizacao"));
    FirstTruthyPicksFirst(body, ["timestamp"], JStr(now));
    VisitorRecord(
      id := FirstTruthy(body, ["id"], JStr(uuid)),
      urlOrigem := FirstTruthy(body, ["url", "page_url"], JStr(BlogUrl)),
      ipVisitante := FirstTruthy(body, ["ip", "visitor_ip"], JStr("N/A")),
      userAgent := FirstTruthy(body, ["user_agent", "userAgent"], JStr("N/A")),
      paginaVisitada := FirstTruthy(body, ["page", "page_title", "title"], JStr(HomePage)),
      tempoPermanencia := FirstTruthy(body, ["time_spent", "duration"], JNum(0.0)),
      origemTrafego := FirstTruthy(body, ["source", "traffic_source", "utm_source"], JStr("direto")),
      campanha := FirstTruthy(body, ["campaign", "utm_campaign"], JNull),
      meio := FirstTruthy(body, ["medium", "utm_medium"], JNull),
      termo := FirstTruthy(body, ["term", "utm_term"], JNull),
      dispositivo := FirstTruthy(body, ["device", "device_type"], JStr("desktop")),
      navegador := FirstTruthy(body, ["browser"], JStr("N/A")),
      localizacao := FirstTruthy(body, ["location", "city"], JStr("N/A")),
      converteu := FirstTruthy(body, ["converted"], JBool(false)),
      acaoRealizada := FirstTruthy(body, ["action", "event"], JStr("visualizacao")),
      timestampVisita := FirstTruthy(body, ["timestamp"], JStr(now)),
      criadoEm := JStr(now))
  }

  /** The record of a payload that supplies nothing usable: every literal
      default of the chains. */
  function Defaults(uuid: string, now: string): VisitorRecord {
    VisitorRecord(
      id := JStr(uuid), urlOrigem := JStr(BlogUrl), ipVisitante := JStr("N/A"),
      userAgent := JStr("N/A"), paginaVisitada := JStr(HomePage),
      tempoPermanencia := JNum(0.0), origemTrafego := JStr("direto"),
      campanha := JNull, meio := JNull, termo := JNull,
      dispositivo := JStr("desktop"), navegador := JStr("N/A"),
      localizacao := JStr("N/A"), converteu := JBool(false),
      acaoRealizada := JStr("visualizacao"), timestampVisita := JStr(now),
      criadoEm := JStr(now))
  }

  /** A chain none of whose candidates is truthy yields its default. */
  lemma {:induction false} NoTruthyCandidateGivesDefault(body: Json, keys: seq<string>, default: Json, within: set<string>)
    requires !body.JNull?
    requires forall k :: k in within ==> !TruthyAt(body, k)
    requires forall i :: 0 <= i < |keys| ==> keys[i] in within
    ensures FirstTruthy(body, keys, default) == default
    decreases |keys|
  {
    if keys != [] {
      NoTruthyCandidateGivesDefault(body, keys[1..], default, within);
    }
  }

  /** A body in which no candidate key holds a truthy value yields every
      default, whatever else it carries. */
  lemma NoTruthyCandidateGivesDefaults(body: Json, uuid: string, now: string)
    requires !body.JNull?
    requires forall k :: k in CandidateKeys ==> !TruthyAt(body, k)
    ensures Normalize(body, uuid, now) == Defaults(uuid, now)
  {
    NoTruthyCandidateFirstFields(body, uuid, now);
    NoTruthyCandidateLastFields(body, uuid, now);
  }

  lemma NoTruthyCandidateFirstFields(body: Json, uuid: string, now: string)
    requires !body.JNull?
    requires forall k :: k in CandidateKeys ==> !TruthyAt(body, k)
    ensures var r, d := Normalize(body, uuid, now), Defaults(uuid, now);
      r.id == d.id && r.urlOrigem == d.urlOrigem && r.ipVisitante == d.ipVisitante
      && r.userAgent == d.userAgent && r.paginaVisitada == d.paginaVisitada
      && r.tempoPermanencia == d.tempoPermanencia && r.origemTrafego == d.origemTrafego
      && r.campanha == d.campanha
  {
    var K := CandidateKeys;
    NoTruthyCandidateGivesDefault(body, ["id"], JStr(uuid), K);
    NoTruthyCandidateGivesDefault(body, ["url", "page_url"], JStr(BlogUrl), K);
    NoTruthyCandidateGivesDefault(body, ["ip", "visitor_ip"], JStr("N/A"), K);
    NoTruthyCandidateGivesDefault(body, ["user_agent", "userAgent"], JStr("N/A"), K);
    NoTruthyCandidateGivesDefault(body, ["page", "page_title", "title"], JStr(HomePage), K);
    NoTruthyCandidateGivesDefault(body, ["time_spent", "duration"], JNum(0.0), K);
    NoTruthyCandidateGivesDefault(body, ["source", "traffic_source", "utm_source"], JStr("direto"), K);
    NoTruthyCandidateGivesDefault(body, ["campaign", "utm_campaign"], JNull, K);
  }

  lemma NoTruthyCandidateLastFields(body: Json, uuid: string, now: string)
    requires !body.JNull?
    requires forall k :: k in CandidateKeys ==> !TruthyAt(body, k)
    ensures var r, d := Normalize(body, uuid, now), Defaults(uuid, now);
      r.meio == d.meio && r.termo == d.termo && r.dispositivo == d.dispositivo
      && r.navegador == d.navegador && r.localizacao == d.localizacao
      && r.converteu == d.converteu && r.acaoRealizada == d.acaoRealizada
      && r.timestampVisita == d.timestampVisita && r.criadoEm == d.criadoEm
  {
    var K := CandidateKeys;
    NoTruthyCandidateGivesDefault(body, ["medium", "utm_medium"], JNull, K);
    NoTruthyCandidateGivesDefault(body, ["term", "utm_term"], JNull, K);
    NoTruthyCandidateGivesDefault(body, ["device", "device_type"], JStr("desktop"), K);
    NoTruthyCandidateGivesDefault(body, ["browser"], JStr("N/A"), K);
    NoTruthyCandidateGivesDefault(body, ["location", "city"], JStr("N/A"), K);
    NoTruthyCandidateGivesDefault(body, ["converted"], JBool(false), K);
    NoTruthyCandidateGivesDefault(body, ["action", "event"], JStr("visualizacao"), K);
    NoTruthyCandidateGivesDefault(body, ["timestamp"], JStr(now), K);
  }

  /** A body that is a boolean, number, string or array has no members: all
      defaults. */
  lemma NonObjectGivesDefaults(body: Json, uuid: string, now: string)
    requires !body.JNull? && !body.JObj?
    ensures Normalize(body, uuid, now) == Defaults(uuid, now)
  {
    NoTruthyCandidateGivesDefaults(body, uuid, now);
  }

  /** Two bodies look the same to the chains over `keys` when each key is
      truthy in both or in neither, with the same value where truthy. */
  ghost predicate AgreeOn(b1: Json, b2: Json, keys: set<string>)
    requires !b1.JNull? && !b2.JNull?
  {
    forall k :: k in keys ==>
      TruthyAt(b1, k) == TruthyAt(b2, k) && (TruthyAt(b1, k) ==> Member(b1, k) == Member(b2, k))
  }

  lemma {:induction false} FirstTruthyCongruent(b1: Json, b2: Json, keys: seq<string>, default: Json, within: set<string>)
    requires !b1.JNull? && !b2.JNull?
    requires AgreeOn(b1, b2, within)
    requires forall i :: 0 <= i < |keys| ==> keys[i] in within
    ensures FirstTruthy(b1, keys, default) == FirstTruthy(b2, keys, default)
    decreases |keys|
  {
    if keys != [] && !TruthyAt(b1, keys[0]) {
      FirstTruthyCongruent(b1, b2, keys[1..], default, within);
    }
  }

  /** The record depends only on the truthy values of the candidate keys:
      every other payload key is dropped. */
  lemma NormalizeReadsOnlyCandidates(b1: Json, b2: Json, uuid: string, now: string)
    requires !b1.JNull? && !b2.JNull?
    requires AgreeOn(b1, b2, CandidateKeys)
    ensures Normalize(b1, uuid, now) == Normalize(b2, uuid, now)
  {
    FirstFieldsReadOnlyCandidates(b1, b2, uuid, now);
    LastFieldsReadOnlyCandidates(b1, b2, uuid, now);
  }

  lemma FirstFieldsReadOnlyCandidates(b1: Json, b2: Json, uuid: string, now: string)
    requires !b1.JNull? && !b2.JNull?
    requires AgreeOn(b1, b2, CandidateKeys)
    ensures var r1, r2 := Normalize(b1, uuid, now), Normalize(b2, uuid, now);
      r1.id == r2.id && r1.urlOrigem == r2.urlOrigem && r1.ipVisitante == r2.ipVisitante
      && r1.userAgent == r2.userAgent && r1.paginaVisitada == r2.paginaVisitada
      && r1.tempoPermanencia == r2.tempoPermanencia && r1.origemTrafego == r2.origemTrafego
      && r1.campanha == r2.campanha
  {
    var K := CandidateKeys;
    FirstTruthyCongruent(b1, b2, ["id"], JStr(uuid), K);
    FirstTruthyCongruent(b1, b2, ["url", "page_url"], JStr(BlogUrl), K);
    FirstTruthyCongruent(b1, b2, ["ip", "visitor_ip"], JStr("N/A"), K);
    FirstTruthyCongruent(b1, b2, ["user_agent", "userAgent"], JStr("N/A"), K);
    FirstTruthyCongruent(b1, b2, ["page", "page_title", "title"], JStr(HomePage), K);
    FirstTruthyCongruent(b1, b2, ["time_spent", "duration"], JNum(0.0), K);
    FirstTruthyCongruent(b1, b2, ["source", "traffic_source", "utm_source"], JStr("direto"), K);
    FirstTruthyCongruent(b1, b2, ["campaign", "utm_campaign"], JNull, K);
  }

  lemma LastFieldsReadOnlyCandidates(b1: Json, b2: Json, uuid: string, now: string)
    requires !b1.JNull? && !b2.JNull?
    requires AgreeOn(b1, b2, CandidateKeys)
    ensures var r1, r2 := Normalize(b1, uuid, now), Normalize(b2, uuid, now);
      r1.meio == r2.meio && r1.termo == r2.termo && r1.dispositivo == r2.dispositivo
      && r1.navegador == r2.navegador && r1.localizacao == r2.localizacao
      && r1.converteu == r2.converteu && r1.acaoRealizada == r2.acaoRealizada
      && r1.timestampVisita == r2.timestampVisita && r1.criadoEm == r2.criadoEm
  {
    var K := CandidateKeys;
    FirstTruthyCongruent(b1, b2, ["medium", "utm_medium"], JNull, K);
    FirstTruthyCongruent(b1, b2, ["term", "utm_term"], JNull, K);
    FirstTruthyCongruent(b1, b2, ["device", "device_type"], JStr("desktop"), K);
    FirstTruthyCongruent(b1, b2, ["browser"], JStr("N/A"), K);
    FirstTruthyCongruent(b1, b2, ["location", "city"], JStr("N/A"), K);
    FirstTruthyCongruent(b1, b2, ["converted"], JBool(false), K);
    FirstTruthyCongruent(b1, b2, ["action", "event"], JStr("visualizacao"), K);
    FirstTruthyCongruent(b1, b2, ["timestamp"], JStr(now), K);
  }

  /** A falsy member (`null`, `false`, `0`, `""`) counts as absent. */
  lemma FalsyMemberIsAbsent(fields: map<string, Json>, k: string, v: Json, uuid: string, now: string)
    requires !Truthy(v)
    ensures Normalize(JObj(fields[k := v]), uuid, now) == Normalize(JObj(fields - {k}), uuid, now)
  {
    NormalizeReadsOnlyCandidates(JObj(fields[k := v]), JObj(fields - {k}), uuid, now);
  }

  /** A payload key outside the candidate lists never reaches the record. */
  lemma OtherKeysDropped(fields: map<string, Json>, k: string, v: Json, uuid: string, now: string)
    requires k !in CandidateKeys
    ensures Normalize(JObj(fields[k := v]), uuid, now) == Normalize(JObj(fields - {k}), uuid, now)
  {
    NormalizeReadsOnlyCandidates(JObj(fields[k := v]), JObj(fields - {k}), uuid, now);
  }

  /** `converteu` is `false` unless `converted` is truthy, and then it is that
      value itself, not coerced to a boolean. */
  lemma ConvertedNotCoerced(body: Json, uuid: string, now: string)
    requires !body.JNull?
    ensures var r := Normalize(body, uuid, now);
      if TruthyAt(body, "converted") then r.converteu == body.fields["converted"]
      else r.converteu == JBool(false)
  {
    var r := Normalize(body, uuid, now);
    if TruthyAt(body, "converted") {
      assert IsFirstTruthyAt(body, ["converted"], 0);
      PicksFirstTruthyUnique(body, ["converted"], JBool(false), r.converteu, body.fields["converted"]);
    }
  }

  // ---------------------------------------------------------------------
  // The inserted row
  // ---------------------------------------------------------------------

  /** The column names of `visitantes_site`, in the order of the literal. */
  const Columns: seq<string> := [
    "id", "url_origem", "ip_visitante", "user_agent", "pagina_visitada",
    "tempo_permanencia", "origem_trafego", "campanha", "meio", "termo",
    "dispositivo", "navegador", "localizacao", "converteu", "acao_realizada",
    "timestamp_visita", "criado_em" ]

  /** The object handed to the store: exactly the 17 columns. */
  function ToRow(r: VisitorRecord): (row: map<string, Json>)
    ensures row.Keys == set c | c in Columns
  {
    var row := map[
      "id" := r.id, "url_origem" := r.urlOrigem, "ip_visitante" := r.ipVisitante,
      "user_agent" := r.userAgent, "pagina_visitada" := r.paginaVisitada,
      "tempo_permanencia" := r.tempoPermanencia, "origem_trafego" := r.origemTrafego,
      "campanha" := r.campanha, "meio" := r.meio, "termo" := r.termo,
      "dispositivo" := r.dispositivo, "navegador" := r.navegador,
      "localizacao" := r.localizacao, "converteu" := r.converteu,
      "acao_realizada" := r.acaoRealizada, "timestamp_visita" := r.timestampVisita,
      "criado_em" := r.criadoEm];
    row
  }

  /** Seventeen distinct column names. */
  lemma ColumnsDistinct()
    ensures |Columns| == 17
    ensures forall i, j :: 0 <= i < j < |Columns| ==> Columns[i] != Columns[j]
  {
  }

  // ---------------------------------------------------------------------
  // Responses
  // ---------------------------------------------------------------------

  /** What `request.json()` gave: a parse failure throws. */
  datatype Request = Unparseable | Parsed(body: Json)

  datatype DbError = DbError(message: string)

  /** The store's `{data, error}` answer to an insert. */
  datatype InsertResult = InsertResult(data: Json, error: Option<DbError>)

  datatype InsertCall = InsertCall(table: string, rows: seq<map<string, Json>>)

  /** A status, an optional JSON body and the response headers. */
  datatype Response = Response(status: int, body: Option<Json>, headers: map<string, string>)

  /** The insert POST issued (if it got that far) and its response. */
  datatype PostOutcome = PostOutcome(insert: Option<InsertCall>, response: Response)

  const Table: string := "visitantes_site"
  const SuccessMessage: string := "Dados do WordPress recebidos e processados com sucesso!"
  const InternalError: string := "Erro interno do servidor ao processar webhook do WordPress."

  /** The `headers` object every response passes: any origin, the two
      methods the route serves, and the `Content-Type` request header. */
  function CorsHeaders(): (h: map<string, string>)
    ensures h.Keys ==
      {"Access-Control-Allow-Origin", "Access-Control-Allow-Methods", "Access-Control-Allow-Headers"}
    ensures h["Access-Control-Allow-Origin"] == "*"
    ensures h["Access-Control-Allow-Methods"] == "POST, OPTIONS"
    ensures h["Access-Control-Allow-Headers"] == "Content-Type"
  {
    map[
      "Access-Control-Allow-Origin" := "*",
      "Access-Control-Allow-Methods" := "POST, OPTIONS",
      "Access-Control-Allow-Headers" := "Content-Type"]
  }

  /** `NextResponse.json(body, { status, headers })`: the given headers plus
      the JSON content type. */
  function JsonResponse(body: Json, status: int): (r: Response)
    ensures r.status == status && r.body == Some(body)
    ensures r.headers.Keys == CorsHeaders().Keys + {"content-type"}
    ensures forall h :: h in CorsHeaders() ==> r.headers[h] == CorsHeaders()[h]
    ensures r.headers["content-type"] == "application/json"
  {
    Response(status, Some(body), CorsHeaders()["content-type" := "application/json"])
  }

  /** The preflight answer. */
  function Options(): (r: Response)
    ensures r.status == 200 && r.body == None
    ensures r.headers.Keys ==
      {"Access-Control-Allow-Origin", "Access-Control-Allow-Methods", "Access-Control-Allow-Headers"}
    ensures r.headers["Access-Control-Allow-Origin"] == "*"
    ensures r.headers["Access-Control-Allow-Methods"] == "POST, OPTIONS"
    ensures r.headers["Access-Control-Allow-Headers"] == "Content-Type"
  {
    Response(200, None, CorsHeaders())
  }

  /** The POST handler. A parse failure or a `null` body (reading `id` of
      null throws) ends in the catch branch before anything is inserted;
      otherwise exactly one normalised row goes to `visitantes_site` and the
      store's `error` decides between 500 and 200. */
  function Post(req: Request, uuid: string, now: string, store: InsertCall -> InsertResult): (o: PostOutcome)
    ensures o.insert.Some? <==> req.Parsed? && !req.body.JNull?
    ensures o.insert.Some? ==>
      o.insert.value == InsertCall(Table, [ToRow(Normalize(req.body, uuid, now))])
    ensures o.response.status == 200 <==> o.insert.Some? && store(o.insert.value).error.None?
    ensures o.response.status != 200 ==> o.response.status == 500
    ensures o.insert.None? ==>
      o.response.body == Some(JObj(map["error" := JStr(InternalError)]))
    ensures o.insert.Some? && store(o.insert.value).error.Some? ==>
      o.response.body == Some(JObj(map["error" := JStr(store(o.insert.value).error.value.message)]))
    ensures o.response.status == 200 ==>
      o.response.body == Some(JObj(map["message" := JStr(SuccessMessage), "data" := store(o.insert.value).data]))
    ensures forall h :: h in CorsHeaders() ==> h in o.response.headers && o.response.headers[h] == CorsHeaders()[h]
  {
    match req
    case Unparseable => PostOutcome(None, JsonResponse(JObj(map["error" := JStr(InternalError)]), 500))
    case Parsed(body) =>
      if body.JNull? then
        PostOutcome(None, JsonResponse(JObj(map["error" := JStr(InternalError)]), 500))
      else
        var call := InsertCall(Table, [ToRow(Normalize(body, uuid, now))]);
        var result := store(call);
        match result.error
        case Some(e) => PostOutcome(Some(call), JsonResponse(JObj(map["error" := JStr(e.message)]), 500))
        case None =>
          PostOutcome(Some(call), JsonResponse(JObj(map["message" := JStr(SuccessMessage), "data" := result.data]), 200))
  }

  /** The preflight and every POST response carry the same CORS headers. */
  lemma CorsOnEveryResponse(req: Request, uuid: string, now: string, store: InsertCall -> InsertResult)
    ensures var post := Post(req, uuid, now, store).response.headers;
      forall h :: h in Options().headers ==> h in post && post[h] == Options().headers[h]
  {
  }

  /** `time_spent: 0` falls through to `duration`. */
  lemma ZeroTimeFallsThrough(uuid: string, now: string)
    ensures Normalize(JObj(map["time_spent" := JNum(0.0), "duration" := JNum(5.0)]), uuid, now).tempoPermanencia
         == JNum(5.0)
  {
    var b := JObj(map["time_spent" := JNum(0.0), "duration" := JNum(5.0)]);
    assert !TruthyAt(b, "time_spent");
    assert TruthyAt(b, "duration");
    assert FirstTruthy(b, ["time_spent", "duration"], JNum(0.0)) == JNum(5.0);
  }

  /** `campaign: ""` falls through to `utm_campaign` and then to `null`. */
  lemma EmptyCampaignFallsThrough(uuid: string, now: string)
    ensures Normalize(JObj(map["campaign" := JStr("")]), uuid, now).campanha == JNull
  {
    var b := JObj(map["campaign" := JStr("")]);
    assert !TruthyAt(b, "campaign");
    assert !TruthyAt(b, "utm_campaign");
    assert FirstTruthy(b, ["campaign", "utm_campaign"], JNull) == JNull;
  }
}
