/**
 * The best-match search of the chatbot (`buscar_similitud`): score every
 * corpus record against the query, order the scores from high to low, and
 * return the top record only when its score reaches the threshold.
 *
 * The query embedding and the similarity measure come from outside (a remote
 * embedding service and a cosine-similarity routine); here they are the
 * parameters `embed` and `cosine`, and scores are exact reals.
 */
module Search {
  import opened Wrappers

  /** The threshold `umbral` that the chat endpoint uses (the default of `buscar_similitud`). */
  const Umbral: real := 0.80

  /** A corpus record: question, answer, optional context and the stored embedding. */
  datatype Item = Item(pregunta: string, respuesta: string, contexto: Option<string>, embedding: seq<real>)

  /** The record `buscar_similitud` returns for a match. */
  datatype Match = Match(similitud: real, pregunta: string, respuesta: string, contexto: string)

  /** A `(score, record)` pair of the list `similitudes`. */
  type Scored = (real, Item)

  /** The list `similitudes`: each record paired with its score, in corpus order. */
  function ScoreAll(qaData: seq<Item>, cosine: (seq<real>, seq<real>) -> real, consultaEmb: seq<real>): seq<Scored> {
    seq(|qaData|, k requires 0 <= k < |qaData| => (cosine(consultaEmb, qaData[k].embedding), qaData[k]))
  }

  /** Scores never increase along `s`. */
  predicate SortedDesc(s: seq<Scored>) {
    forall i, j :: 0 <= i < j < |s| ==> s[i].0 >= s[j].0
  }

  /**
   * Insert `x` into the descending list `t` ahead of the first element whose
   * score is not above its own: `x` stays in front of the elements it ties with.
   */
  function InsertDesc(x: Scored, t: seq<Scored>): (r: seq<Scored>)
    ensures multiset(r) == multiset(t) + multiset{x}
    ensures |r| == |t| + 1
    ensures r[0] == x || (t != [] && r[0] == t[0])
    ensures t == [] || t[0].0 <= x.0 ==> r == [x] + t
    decreases |t|
  {
    if t == [] || t[0].0 <= x.0 then [x] + t
    else
      assert t == [t[0]] + t[1..];
      [t[0]] + InsertDesc(x, t[1..])
  }

  /** Inserting into a descending list keeps it descending. */
  lemma {:induction false} InsertDescSorted(x: Scored, t: seq<Scored>)
    requires SortedDesc(t)
    ensures SortedDesc(InsertDesc(x, t))
    decreases |t|
  {
    if t != [] && t[0].0 > x.0 {
      InsertDescSorted(x, t[1..]);
      var rest := InsertDesc(x, t[1..]);
      assert InsertDesc(x, t) == [t[0]] + rest;
      assert rest[0] == x || rest[0] == t[1];
    }
  }

  /**
   * `similitudes.sort(reverse=True, key=lambda x: x[0])`: a stable sort by
   * descending score. The result is a permutation of `s` in descending order.
   */
  function SortDesc(s: seq<Scored>): (r: seq<Scored>)
    ensures multiset(r) == multiset(s)
    ensures SortedDesc(r)
    ensures |r| == |s|
    decreases |s|
  {
    if s == [] then []
    else
      assert s == [s[0]] + s[1..];
      InsertDescSorted(s[0], SortDesc(s[1..]));
      InsertDesc(s[0], SortDesc(s[1..]))
  }

  /**
   * The position of the first highest score of `s`: no score is above it and
   * every score before it is strictly below it.
   */
  function FirstArgMax(s: seq<Scored>): (k: nat)
    requires |s| > 0
    ensures k < |s|
    ensures forall j :: 0 <= j < |s| ==> s[j].0 <= s[k].0
    ensures forall j :: 0 <= j < k ==> s[j].0 < s[k].0
    decreases |s|
  {
    if |s| == 1 then 0
    else
      var k := 1 + FirstArgMax(s[1..]);
      if s[0].0 >= s[k].0 then 0 else k
  }

  /** The head of the stable descending sort is the first of the highest-scoring elements. */
  lemma {:induction false} SortDescHead(s: seq<Scored>)
    requires |s| > 0
    ensures SortDesc(s)[0] == s[FirstArgMax(s)]
    decreases |s|
  {
    if |s| > 1 {
      var t := SortDesc(s[1..]);
      SortDescHead(s[1..]);
      var k := 1 + FirstArgMax(s[1..]);
      assert t[0] == s[k];
    }
  }

  /** The record built from a winning pair; `contexto` falls back to `respuesta`. */
  function ToMatch(p: Scored): Match {
    Match(p.0, p.1.pregunta, p.1.respuesta, p.1.contexto.GetOr(p.1.respuesta))
  }

  /**
   * What `buscar_similitud` returns for the scored list `s`: nothing for an
   * empty list; otherwise the first highest-scoring record if its score is at
   * least `umbral`, and nothing if it is below.
   */
  function BestMatch(s: seq<Scored>, umbral: real): (r: Option<Match>)
    ensures |s| == 0 ==> r == None
    ensures r.Some? <==> exists j :: 0 <= j < |s| && s[j].0 >= umbral
    ensures r.Some? ==> r.value.similitud >= umbral
    ensures r.Some? ==> forall j :: 0 <= j < |s| ==> s[j].0 <= r.value.similitud
    ensures r.Some? ==> exists j :: 0 <= j < |s| && s[j].0 == r.value.similitud
  {
    if |s| == 0 then None
    else
      var k := FirstArgMax(s);
      if s[k].0 >= umbral then Some(ToMatch(s[k])) else None
  }

  /**
   * A match is the first record of the corpus with the highest score, and its
   * fields are that record's; `contexto` is the record's own context when it
   * has one and its answer otherwise.
   */
  lemma BestMatchIsFirstBest(qaData: seq<Item>, cosine: (seq<real>, seq<real>) -> real, consultaEmb: seq<real>, umbral: real)
    requires BestMatch(ScoreAll(qaData, cosine, consultaEmb), umbral).Some?
    ensures var m := BestMatch(ScoreAll(qaData, cosine, consultaEmb), umbral).value;
      var k := FirstArgMax(ScoreAll(qaData, cosine, consultaEmb));
      && k < |qaData|
      && m.similitud == cosine(consultaEmb, qaData[k].embedding)
      && (forall j :: 0 <= j < |qaData| ==> cosine(consultaEmb, qaData[j].embedding) <= m.similitud)
      && (forall j :: 0 <= j < k ==> cosine(consultaEmb, qaData[j].embedding) < m.similitud)
      && m.pregunta == qaData[k].pregunta
      && m.respuesta == qaData[k].respuesta
      && m.contexto == (if qaData[k].contexto.Some? then qaData[k].contexto.value else qaData[k].respuesta)
  {
    var s := ScoreAll(qaData, cosine, consultaEmb);
    var k := FirstArgMax(s);
    forall j | 0 <= j < |qaData| ensures cosine(consultaEmb, qaData[j].embedding) <= s[k].0 {
      assert s[j].0 == cosine(consultaEmb, qaData[j].embedding);
    }
    forall j | 0 <= j < k ensures cosine(consultaEmb, qaData[j].embedding) < s[k].0 {
      assert s[j].0 == cosine(consultaEmb, qaData[j].embedding);
    }
  }

  /** There is a match exactly when some record of the corpus scores at least `umbral`. */
  lemma MatchIffAboveThreshold(qaData: seq<Item>, cosine: (seq<real>, seq<real>) -> real, consultaEmb: seq<real>, umbral: real)
    ensures BestMatch(ScoreAll(qaData, cosine, consultaEmb), umbral).Some?
        <==> exists j :: 0 <= j < |qaData| && cosine(consultaEmb, qaData[j].embedding) >= umbral
  {
    var s := ScoreAll(qaData, cosine, consultaEmb);
    if BestMatch(s, umbral).Some? {
      var j :| 0 <= j < |s| && s[j].0 >= umbral;
      assert cosine(consultaEmb, qaData[j].embedding) >= umbral;
    } else {
      forall j | 0 <= j < |qaData| ensures cosine(consultaEmb, qaData[j].embedding) < umbral {
        assert s[j].0 == cosine(consultaEmb, qaData[j].embedding);
      }
    }
  }

  /**
   * `buscar_similitud(consulta, umbral)`: embed the query, fill `similitudes`
   * with one `(score, record)` pair per corpus record, sort it by descending
   * score and keep the head if it reaches `umbral`.
   */
  method BuscarSimilitud(consulta: string, qaData: seq<Item>, embed: string -> seq<real>,
                         cosine: (seq<real>, seq<real>) -> real, umbral: real)
    returns (r: Option<Match>)
    ensures r == BestMatch(ScoreAll(qaData, cosine, embed(consulta)), umbral)
  {
    var consultaEmb := embed(consulta);
    var similitudes: seq<Scored> := [];
    var i := 0;
    while i < |qaData|
      invariant 0 <= i <= |qaData|
      invariant similitudes == ScoreAll(qaData[..i], cosine, consultaEmb)
    {
      var sim := cosine(consultaEmb, qaData[i].embedding);
      similitudes := similitudes + [(sim, qaData[i])];
      i := i + 1;
    }
    assert qaData[..i] == qaData;
    if |similitudes| == 0 {
      return None;
    }
    var ordenadas := SortDesc(similitudes);
    SortDescHead(similitudes);
    var (mejorScore, mejorItem) := ordenadas[0];
    if mejorScore >= umbral {
      r := Some(ToMatch((mejorScore, mejorItem)));
    } else {
      r := None;
    }
  }
}
