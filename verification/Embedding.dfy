/** Embedding chunk texts batch by batch (app/services/ingestion.py). */
module Embedding {
  import opened Wrappers

  const EMBED_BATCH: nat := 128

  /** What the endpoint answers to call number `b` with the given batch: vectors, however many, or a failure. */
  type Endpoint<!V> = (nat, seq<string>) -> Result<seq<V>, string>

  /** Length of the next batch when `left` texts are left. */
  function BatchSize(left: nat): nat {
    if left < EMBED_BATCH then left else EMBED_BATCH
  }

  /** The replies to all batches from call `b` on, in order, or the first failure. */
  function Embedded<V>(texts: seq<string>, ask: Endpoint<V>, b: nat): Result<seq<V>, string> {
    if texts == [] then Ok([])
    else
      var size := BatchSize(|texts|);
      match ask(b, texts[..size])
      case Err(error) => Err(error)
      case Ok(vectors) =>
        match Embedded(texts[size..], ask, b + 1)
        case Err(error) => Err(error)
        case Ok(rest) => Ok(vectors + rest)
  }

  /** What has been collected, followed by what the remaining calls answer. */
  function Followed<V>(vectors: seq<V>, rest: Result<seq<V>, string>): Result<seq<V>, string> {
    match rest
    case Err(error) => Err(error)
    case Ok(more) => Ok(vectors + more)
  }

  lemma {:induction false} NothingFollowed<V>(rest: Result<seq<V>, string>)
    ensures Followed([], rest) == rest
  {
    if rest.Ok? {
      assert [] + rest.value == rest.value;
    }
  }

  lemma {:induction false} FollowedStep<V>(texts: seq<string>, ask: Endpoint<V>, b: nat, start: nat, vectors: seq<V>)
    requires start < |texts|
    ensures var size := BatchSize(|texts| - start);
            var reply := ask(b, texts[start..start + size]);
            Followed(vectors, Embedded(texts[start..], ask, b)) ==
            match reply
            case Err(error) => Err(error)
            case Ok(more) => Followed(vectors + more, Embedded(texts[start + size..], ask, b + 1))
  {
    var size := BatchSize(|texts| - start);
    assert texts[start..][..size] == texts[start..start + size];
    assert texts[start..][size..] == texts[start + size..];
    var reply, rest := ask(b, texts[start..start + size]), Embedded(texts[start + size..], ask, b + 1);
    if reply.Ok? && rest.Ok? {
      assert vectors + (reply.value + rest.value) == (vectors + reply.value) + rest.value;
    }
  }

  method EmbedChunkTexts<V>(texts: seq<string>, ask: Endpoint<V>) returns (r: Result<seq<V>, string>)
    ensures r == Embedded(texts, ask, 0)
  {
    var vectors: seq<V> := [];
    var start, b := 0, 0;
    NothingFollowed(Embedded(texts, ask, 0));
    assert texts[0..] == texts;
    while start < |texts|
      invariant 0 <= start <= |texts|
      invariant Followed(vectors, Embedded(texts[start..], ask, b)) == Embedded(texts, ask, 0)
    {
      FollowedStep(texts, ask, b, start, vectors);
      var size := BatchSize(|texts| - start);
      var reply := ask(b, texts[start..start + size]);
      if reply.Err? {
        return Err(reply.error);
      }
      vectors := vectors + reply.value;
      start, b := start + size, b + 1;
    }
    assert texts[start..] == [] && vectors + [] == vectors;
    return Ok(vectors);
  }

  // ----- Which vector belongs to which text -----

  /** Every batch from call `b` on is answered with one vector per text. */
  predicate InFull<V>(texts: seq<string>, ask: Endpoint<V>, b: nat) {
    texts == [] ||
    var size := BatchSize(|texts|);
    ask(b, texts[..size]).Ok? && |ask(b, texts[..size]).value| == size && InFull(texts[size..], ask, b + 1)
  }

  /** Every batch but the last is. */
  predicate EarlierInFull<V>(texts: seq<string>, ask: Endpoint<V>, b: nat) {
    |texts| <= EMBED_BATCH ||
    (ask(b, texts[..EMBED_BATCH]).Ok? && |ask(b, texts[..EMBED_BATCH]).value| == EMBED_BATCH
     && EarlierInFull(texts[EMBED_BATCH..], ask, b + 1))
  }

  /** The vector the endpoint gave for text `i`, counting calls from `b`. */
  function VectorFor<V>(texts: seq<string>, ask: Endpoint<V>, b: nat, i: nat): V
    requires i < |texts| && InFull(texts, ask, b)
  {
    var size := BatchSize(|texts|);
    if i < size then ask(b, texts[..size]).value[i] else VectorFor(texts[size..], ask, b + 1, i - size)
  }

  /** With one vector per text in every reply, vector `i` is the one the endpoint gave for text `i`. */
  lemma {:induction false} VectorsAreAligned<V>(texts: seq<string>, ask: Endpoint<V>, b: nat)
    requires InFull(texts, ask, b)
    ensures var r := Embedded(texts, ask, b);
            && r.Ok? && |r.value| == |texts|
            && forall i :: 0 <= i < |texts| ==> r.value[i] == VectorFor(texts, ask, b, i)
    decreases |texts|
  {
    if texts != [] {
      VectorsAreAligned(texts[BatchSize(|texts|)..], ask, b + 1);
    }
  }

  /** If all batches before the last are answered in full, the total is right exactly when the last one is too. */
  lemma {:induction false} TotalDecidesLast<V>(texts: seq<string>, ask: Endpoint<V>, b: nat)
    requires EarlierInFull(texts, ask, b) && Embedded(texts, ask, b).Ok?
    ensures |Embedded(texts, ask, b).value| == |texts| <==> InFull(texts, ask, b)
    decreases |texts|
  {
    if texts != [] {
      var rest := texts[BatchSize(|texts|)..];
      if |texts| > EMBED_BATCH {
        TotalDecidesLast(rest, ask, b + 1);
      } else {
        assert rest == [];
      }
    }
  }

  // ----- How much the total tells -----

  /** The total that is checked is right. */
  predicate TotalRight<V>(texts: seq<string>, ask: Endpoint<V>) {
    Embedded(texts, ask, 0).Ok? && |Embedded(texts, ask, 0).value| == |texts|
  }

  function Fill<V>(n: nat, v: V): (vectors: seq<V>)
    ensures |vectors| == n
  {
    seq(n, _ => v)
  }

  /** No reply from call `b` on is empty. */
  predicate NoneEmpty<V>(texts: seq<string>, ask: Endpoint<V>, b: nat) {
    texts == [] ||
    var size := BatchSize(|texts|);
    ask(b, texts[..size]).Ok? && ask(b, texts[..size]).value != [] && NoneEmpty(texts[size..], ask, b + 1)
  }

  /** One vector short in the first reply, one too many in the second, all others in full. */
  function Shifted<V>(v: V): Endpoint<V> {
    (b: nat, batch: seq<string>) =>
      Ok(Fill(if b == 0 && |batch| > 0 then |batch| - 1 else if b == 1 then |batch| + 1 else |batch|, v))
  }

  lemma {:induction false} LaterRepliesAreFull<V>(texts: seq<string>, v: V, b: nat)
    requires b >= 2
    ensures var r := Embedded(texts, Shifted(v), b); r.Ok? && |r.value| == |texts|
    ensures NoneEmpty(texts, Shifted(v), b)
    decreases |texts|
  {
    if texts != [] {
      var size := BatchSize(|texts|);
      assert Shifted(v)(b, texts[..size]) == Ok(Fill(size, v));
      LaterRepliesAreFull(texts[size..], v, b + 1);
    }
  }

  lemma {:induction false} SecondReplyIsLong<V>(texts: seq<string>, v: V)
    requires texts != []
    ensures var r := Embedded(texts, Shifted(v), 1); r.Ok? && |r.value| == |texts| + 1
    ensures NoneEmpty(texts, Shifted(v), 1)
  {
    var size := BatchSize(|texts|);
    assert Shifted(v)(1, texts[..size]) == Ok(Fill(size + 1, v));
    LaterRepliesAreFull(texts[size..], v, 2);
  }

  /** For more than one batch the total misses replies, none of them empty, whose errors cancel out. */
  lemma {:induction false} TotalHidesShift<V>(texts: seq<string>, v: V)
    requires |texts| > EMBED_BATCH
    ensures TotalRight(texts, Shifted(v)) && NoneEmpty(texts, Shifted(v), 0) && !InFull(texts, Shifted(v), 0)
  {
    SecondReplyIsLong(texts[EMBED_BATCH..], v);
    assert Shifted(v)(0, texts[..EMBED_BATCH]) == Ok(Fill(EMBED_BATCH - 1, v));
  }

  /** A right total guarantees every chunk its own vector exactly for documents of at most one batch. */
  lemma {:induction false} TotalSufficesExactly<V(!new)>(texts: seq<string>, v: V)
    ensures (forall ask: Endpoint<V> :: TotalRight(texts, ask) ==> InFull(texts, ask, 0)) <==> |texts| <= EMBED_BATCH
  {
    if |texts| <= EMBED_BATCH {
      forall ask: Endpoint<V> | TotalRight(texts, ask) ensures InFull(texts, ask, 0) {
        TotalDecidesLast(texts, ask, 0);
      }
    } else {
      TotalHidesShift(texts, v);
    }
  }
}
