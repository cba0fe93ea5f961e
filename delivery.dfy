/** The delivery loops: TelegramPublisher.send_message in both publishers and
    send_to_telegram of the cheapest-apartments script. Each cleans the text,
    cuts it into chunks, decorates the first and the last chunk and posts the
    chunks one by one; a rejected chunk is saved to a diagnostic file and,
    in the two publishers, retried once in shortened form. The HTTP answers
    and the clock are parameters; what the loop does is recorded as events. */
module Delivery {
  import opened Text
  import opened Sanitizer
  import opened Chunker

  /** Which of the three loops: price_changes_publisher.py, telegram_publisher.py
      or find_cheapest_apartments_langchain.py. */
  datatype Variant = PriceChanges | Analysis | Cheapest

  /** What a post brings back: an HTTP status and, should it be a rejection,
      how handling it goes; or an exception. */
  datatype Response = Answered(status: int, handling: Handling) | Raised

  /** After a status other than 200: the error text is read and the chunk
      written to its file; or response.text() raises; or opening or writing
      the file raises. Either exception ends the chunk in the loop's handler. */
  datatype Handling = Recorded | TextRaises | WriteRaises

  /** A post of a text for chunk i, or a diagnostic file written for chunk i. */
  datatype Event = Post(chunk: nat, text: string) | Saved(chunk: nat, file: string, text: string)

  const InvestorHeader: string :=
    "🔎 СТУДИИ И КВАРТИРЫ ДО 40 КВ. М.\n"
    + "📊 Аналитика для инвесторов: компактные объекты недвижимости обеспечивают наилучшую доходность с минимальными вложениями.\n"
    + "💼 Идеальны для краткосрочной аренды и быстрой перепродажи.\n\n"

  const InvestorFooter: string :=
    "\n\n📈 Доходность студий и небольших квартир в ОАЭ достигает 8-10% годовых."
    + "\n📱 Подписывайтесь на наш канал для актуальной информации о выгодных инвестициях!"

  const PriceHashtags: string := "\n\n#недвижимость #ОАЭ #ценынаквартиры #инвестиции #студии #доходность"

  const AnalysisHashtags: string := "\n\n#недвижимость #анализ #инвестиции"

  const ShortMarker: string := "... (сообщение сокращено)"

  /** The timestamped banner; time is datetime.now() formatted as %d.%m.%Y %H:%M. */
  function Banner(v: Variant, time: string): string {
    if v == PriceChanges then "💰 ИЗМЕНЕНИЯ ЦЕН НА НЕДВИЖИМОСТЬ - " + time + "\n\n"
    else "📊 Анализ квартир до 40 кв.м. - " + time + "\n\n"
  }

  /** Everything put before the first chunk. */
  function Header(v: Variant, time: string): string {
    if v == PriceChanges then InvestorHeader + Banner(v, time) else Banner(v, time)
  }

  /** Everything put after the last chunk. */
  function Trailer(v: Variant): string {
    if v == PriceChanges then InvestorFooter + PriceHashtags else AnalysisHashtags
  }

  /** What goes before chunk i: the header on the first chunk only. */
  function Open(v: Variant, time: string, i: nat): string {
    if i == 0 then Header(v, time) else ""
  }

  /** What goes after chunk i of n: the trailer on the last chunk only. */
  function Close(v: Variant, i: nat, n: nat): string {
    if i == n - 1 then Trailer(v) else ""
  }

  /** Chunk i of n as the loop decorates it (a single chunk gets both). */
  function Decorate(v: Variant, time: string, i: nat, n: nat, c: string): string {
    Open(v, time, i) + c + Close(v, i, n)
  }

  /** The hard limit of the two publishers: chunk[:3997] + "..." above 4000. */
  function Fit(c: string): string {
    if |c| > 4000 then c[..3997] + "..." else c
  }

  /** The text of the chunk actually posted first. */
  function Outgoing(v: Variant, time: string, i: nat, n: nat, c: string): string {
    if v == Cheapest then Decorate(v, time, i, n, c) else Fit(Decorate(v, time, i, n, c))
  }

  /** The shortened retry, chunk[:950] + marker. */
  function Shorten(c: string): string
    requires |c| > 1000
  {
    c[..950] + ShortMarker
  }

  /** error_chunk_<stamp>.txt, with _<i> before the extension except in the
      price-change publisher; stamp is datetime.now() as %Y%m%d_%H%M%S. */
  function FileName(v: Variant, stamp: string, i: nat): string {
    "error_chunk_" + stamp + (if v == PriceChanges then "" else "_" + NatToString(i)) + ".txt"
  }

  predicate Rejected(r: Response) {
    r.Answered? && r.status != 200
  }

  /** A rejection whose chunk is saved: the error text and the file write
      both succeed. */
  predicate Saves(r: Response) {
    Rejected(r) && r.handling == Recorded
  }

  predicate Retries(v: Variant, r: Response, msg: string) {
    v != Cheapest && Saves(r) && |msg| > 1000
  }

  /** What happens for chunk i posted as msg, given the answer to the post. */
  function ChunkEvents(v: Variant, i: nat, msg: string, stamp: string, r: Response): seq<Event> {
    if !Saves(r) then [Post(i, msg)]
    else [Post(i, msg), Saved(i, FileName(v, stamp, i), msg)]
         + (if v != Cheapest && |msg| > 1000 then [Post(i, Shorten(msg))] else [])
  }

  /** The texts the loop posts first, one per chunk. */
  function Messages(v: Variant, chunks: seq<string>, time: string): seq<string> {
    seq(|chunks|, j requires 0 <= j < |chunks| => Outgoing(v, time, j, |chunks|, chunks[j]))
  }

  /** The events of chunk i, for each chunk of msgs. */
  function Block(v: Variant, msgs: seq<string>, stamps: nat -> string, respond: nat -> Response): nat -> seq<Event> {
    (i: nat) => if i < |msgs| then ChunkEvents(v, i, msgs[i], stamps(i), respond(i)) else []
  }

  /** The blocks of chunks 0 to k - 1, in order. */
  function Concat(block: nat -> seq<Event>, k: nat): seq<Event> {
    if k == 0 then [] else Concat(block, k - 1) + block(k - 1)
  }

  /** The events of the first k messages. */
  function Log(v: Variant, msgs: seq<string>, stamps: nat -> string, respond: nat -> Response, k: nat): seq<Event>
    requires k <= |msgs|
  {
    Concat(Block(v, msgs, stamps, respond), k)
  }

  /** The body of the loop for one chunk: post it and, when the answer is
      a status other than 200, read the error text, save the chunk and
      (publishers only) retry it shortened. An exception from the post, from
      response.text() or from the file is caught and ends the chunk. */
  method PostChunk(v: Variant, i: nat, chunk: string, stamp: string, answer: Response)
    returns (block: seq<Event>)
    ensures block == ChunkEvents(v, i, chunk, stamp, answer)
  {
    block := [Post(i, chunk)];
    if answer.Answered? && answer.status != 200 {
      if answer.handling == TextRaises {
        // error_text = await response.text() raised
        return;
      }
      if answer.handling == WriteRaises {
        // the error file could not be opened or written
        return;
      }
      block := block + [Saved(i, FileName(v, stamp, i), chunk)];
      if v != Cheapest && |chunk| > 1000 {
        block := block + [Post(i, Shorten(chunk))];
      }
    }
  }

  /** The for loop over enumerate(chunks). */
  method Deliver(v: Variant, chunks: seq<string>, time: string, stamps: nat -> string,
                 respond: nat -> Response) returns (events: seq<Event>)
    ensures events == Log(v, Messages(v, chunks, time), stamps, respond, |chunks|)
  {
    var msgs := Messages(v, chunks, time);
    events := [];
    for i := 0 to |chunks|
      invariant events == Log(v, msgs, stamps, respond, i)
    {
      // the chunk as decorated and, in the publishers, cut to 4000 characters
      var chunk := msgs[i];
      var block := PostChunk(v, i, chunk, stamps(i), respond(i));
      LogSnoc(v, msgs, stamps, respond, i + 1);
      events := events + block;
    }
  }

  /** send_message of either publisher: false, with nothing posted, only when
      the HTTP session cannot be opened. */
  method SendMessage(v: Variant, text: string, unescape: string -> string, sessionOk: bool,
                     time: string, stamps: nat -> string, respond: nat -> Response)
    returns (ok: bool, events: seq<Event>)
    requires v != Cheapest
    ensures ok == sessionOk
    ensures events == if sessionOk
      then Log(v, Messages(v, Chunks(CleanHtmlAndSanitize(text, unescape), 3000), time), stamps, respond,
               |Chunks(CleanHtmlAndSanitize(text, unescape), 3000)|)
      else []
  {
    var clean := CleanHtmlAndSanitize(text, unescape);
    var chunks := SplitTextIntoChunks(clean, 3000);
    if !sessionOk {
      return false, [];
    }
    events := Deliver(v, chunks, time, stamps, respond);
    ok := true;
  }

  /** publish_analysis of telegram_publisher.py: nothing is sent for a
      missing or empty analysis. */
  method PublishAnalysis(analysis: Option<string>, unescape: string -> string, sessionOk: bool,
                         time: string, stamps: nat -> string, respond: nat -> Response)
    returns (ok: bool, events: seq<Event>)
    ensures (analysis == None || analysis == Some("")) ==> !ok && events == []
    ensures analysis.Some? && analysis.value != "" ==> ok == sessionOk
    ensures analysis.Some? && analysis.value != "" ==>
      var chunks := Chunks(CleanHtmlAndSanitize(analysis.value, unescape), 3000);
      events == if sessionOk then Log(Analysis, Messages(Analysis, chunks, time), stamps, respond, |chunks|) else []
  {
    if analysis == None || analysis.value == "" {
      return false, [];
    }
    ok, events := SendMessage(Analysis, analysis.value, unescape, sessionOk, time, stamps, respond);
  }

  /** send_to_telegram of the cheapest-apartments script: line chunks, no
      truncation, no retry, and nothing at all without a token and a channel.
      The session is opened outside any try, so its failure propagates to
      the caller: raised is true and nothing is posted. */
  method SendToTelegram(text: string, unescape: string -> string, hasToken: bool, hasChannel: bool,
                        sessionOk: bool, time: string, stamps: nat -> string, respond: nat -> Response)
    returns (raised: bool, events: seq<Event>)
    ensures !hasToken || !hasChannel ==> !raised && events == []
    ensures hasToken && hasChannel ==> raised == !sessionOk
    ensures hasToken && hasChannel ==>
      events == if sessionOk
        then Log(Cheapest, Messages(Cheapest, LineChunks(CleanHtmlAndSanitize(text, unescape), 3000), time), stamps, respond,
                 |LineChunks(CleanHtmlAndSanitize(text, unescape), 3000)|)
        else []
  {
    var clean := CleanHtmlAndSanitize(text, unescape);
    var chunks := SplitLinesIntoChunks(clean, 3000);
    if !hasToken || !hasChannel {
      return false, [];
    }
    if !sessionOk {
      return true, [];
    }
    events := Deliver(Cheapest, chunks, time, stamps, respond);
    raised := false;
  }

  // Properties of the decoration

  /** A chunk goes out unchanged when it fits, and otherwise as its first 3997
      characters and an ellipsis, 4000 characters in all. */
  lemma FitSpec(c: string)
    ensures |Fit(c)| <= 4000
    ensures Fit(c) == c <==> |c| <= 4000
    ensures |c| > 4000 ==> |Fit(c)| == 4000 && Fit(c)[..3997] == c[..3997] && Fit(c)[3997..] == "..."
  {
    if |c| > 4000 {
      assert Fit(c)[3997..] == "...";
    }
  }

  /** The retry is the first 950 characters and the marker: 975 characters,
      under the 1000 that triggers a retry. */
  lemma ShortenSpec(c: string)
    requires |c| > 1000
    ensures |Shorten(c)| == 975 < 1000
    ensures Shorten(c)[..950] == c[..950] && Shorten(c)[950..] == ShortMarker
  {
    assert Shorten(c)[950..] == ShortMarker;
  }

  /** The chunk sits unchanged between what Open and Close put around it. */
  lemma DecorateSpec(v: Variant, time: string, i: nat, n: nat, c: string)
    ensures |Decorate(v, time, i, n, c)| == |Open(v, time, i)| + |c| + |Close(v, i, n)|
    ensures Decorate(v, time, i, n, c)[..|Open(v, time, i)|] == Open(v, time, i)
    ensures Decorate(v, time, i, n, c)[|Open(v, time, i)|..|Open(v, time, i)| + |c|] == c
    ensures Decorate(v, time, i, n, c)[|Open(v, time, i)| + |c|..] == Close(v, i, n)
  {
    var o, z := Open(v, time, i), Close(v, i, n);
    var d := o + c + z;
    assert d[..|o|] == o;
    assert d[|o|..|o| + |c|] == c;
    assert d[|o| + |c|..] == z;
  }

  /** Only the first chunk is opened and only the last one closed. */
  lemma OpenCloseSpec(v: Variant, time: string, i: nat, n: nat)
    requires i < n
    ensures Open(v, time, i) != "" <==> i == 0
    ensures Close(v, i, n) != "" <==> i == n - 1
    ensures 0 < i < n - 1 ==> Decorate(v, time, i, n, "") == ""
  {
    assert |Header(v, time)| > 0;
    assert |Trailer(v)| > 0;
  }

  /** The publishers never post more than 4000 characters; the cheapest
      script sends the decorated chunk as it is. */
  lemma OutgoingSpec(v: Variant, time: string, i: nat, n: nat, c: string)
    ensures v != Cheapest ==> |Outgoing(v, time, i, n, c)| <= 4000
    ensures v == Cheapest ==> Outgoing(v, time, i, n, c) == Decorate(v, time, i, n, c)
  {
    FitSpec(Decorate(v, time, i, n, c));
  }

  // Properties of the event log

  function CountPosts(es: seq<Event>): nat {
    if es == [] then 0 else CountPosts(es[..|es| - 1]) + (if es[|es| - 1].Post? then 1 else 0)
  }

  function CountSaved(es: seq<Event>): nat {
    if es == [] then 0 else CountSaved(es[..|es| - 1]) + (if es[|es| - 1].Saved? then 1 else 0)
  }

  lemma CountAppend(a: seq<Event>, b: seq<Event>)
    ensures CountPosts(a + b) == CountPosts(a) + CountPosts(b)
    ensures CountSaved(a + b) == CountSaved(a) + CountSaved(b)
  {
    if b != [] {
      assert (a + b)[..|a + b| - 1] == a + b[..|b| - 1];
      CountAppend(a, b[..|b| - 1]);
    } else {
      assert a + b == a;
    }
  }

  lemma CountOne(e: Event)
    ensures CountPosts([e]) == (if e.Post? then 1 else 0)
    ensures CountSaved([e]) == (if e.Saved? then 1 else 0)
  {
    assert [e][..0] == [];
  }

  /** One chunk: the first event posts the message; one file is saved exactly
      when the answer is a status other than 200 and reading the error text
      and writing the file succeed (an exception is only logged); a second
      post, the shortened text, follows exactly when the publishers have
      saved a message over 1000 characters. */
  lemma ChunkEventsSpec(v: Variant, i: nat, msg: string, stamp: string, r: Response)
    ensures ChunkEvents(v, i, msg, stamp, r) != [] && ChunkEvents(v, i, msg, stamp, r)[0] == Post(i, msg)
    ensures CountSaved(ChunkEvents(v, i, msg, stamp, r)) == (if Saves(r) then 1 else 0)
    ensures CountPosts(ChunkEvents(v, i, msg, stamp, r)) == (if Retries(v, r, msg) then 2 else 1)
    ensures Retries(v, r, msg) ==> ChunkEvents(v, i, msg, stamp, r)[2] == Post(i, Shorten(msg))
    ensures forall k :: 0 <= k < |ChunkEvents(v, i, msg, stamp, r)| ==> ChunkEvents(v, i, msg, stamp, r)[k].chunk == i
  {
    var p := Post(i, msg);
    CountOne(p);
    if Saves(r) {
      var f := Saved(i, FileName(v, stamp, i), msg);
      CountOne(f);
      CountAppend([p], [f]);
      if v != Cheapest && |msg| > 1000 {
        CountOne(Post(i, Shorten(msg)));
        CountAppend([p, f], [Post(i, Shorten(msg))]);
      } else {
        assert [p, f] + [] == [p, f];
      }
    }
  }

  /** The log of k messages after the block of message k - 1. */
  lemma LogSnoc(v: Variant, msgs: seq<string>, stamps: nat -> string, respond: nat -> Response, k: nat)
    requires 0 < k <= |msgs|
    ensures Log(v, msgs, stamps, respond, k)
      == Log(v, msgs, stamps, respond, k - 1) + ChunkEvents(v, k - 1, msgs[k - 1], stamps(k - 1), respond(k - 1))
  {
  }

  /** Every event of the log of k messages is for one of those k chunks,
      and the events come in the order of the chunks. */
  lemma LogOrdered(v: Variant, msgs: seq<string>, stamps: nat -> string,
                   respond: nat -> Response, k: nat)
    requires k <= |msgs|
    ensures forall a :: 0 <= a < |Log(v, msgs, stamps, respond, k)| ==> Log(v, msgs, stamps, respond, k)[a].chunk < k
    ensures forall a, b :: 0 <= a <= b < |Log(v, msgs, stamps, respond, k)| ==>
      Log(v, msgs, stamps, respond, k)[a].chunk <= Log(v, msgs, stamps, respond, k)[b].chunk
  {
    var block := Block(v, msgs, stamps, respond);
    forall i | 0 <= i < k ensures forall a :: 0 <= a < |block(i)| ==> block(i)[a].chunk == i {
      ChunkEventsSpec(v, i, msgs[i], stamps(i), respond(i));
    }
    ConcatOrdered(block, k);
  }

  lemma {:induction false} ConcatOrdered(block: nat -> seq<Event>, k: nat)
    requires forall i :: 0 <= i < k ==> forall a :: 0 <= a < |block(i)| ==> block(i)[a].chunk == i
    ensures forall a :: 0 <= a < |Concat(block, k)| ==> Concat(block, k)[a].chunk < k
    ensures forall a, b :: 0 <= a <= b < |Concat(block, k)| ==> Concat(block, k)[a].chunk <= Concat(block, k)[b].chunk
  {
    if k > 0 {
      ConcatOrdered(block, k - 1);
      OrderedAppend(Concat(block, k - 1), block(k - 1), k - 1);
    }
  }

  /** Events below chunk i, in chunk order, followed by events of chunk i. */
  lemma OrderedAppend(prev: seq<Event>, last: seq<Event>, i: nat)
    requires forall a :: 0 <= a < |prev| ==> prev[a].chunk < i
    requires forall a, b :: 0 <= a <= b < |prev| ==> prev[a].chunk <= prev[b].chunk
    requires forall a :: 0 <= a < |last| ==> last[a].chunk == i
    ensures forall a :: 0 <= a < |prev + last| ==> (prev + last)[a].chunk < i + 1
    ensures forall a, b :: 0 <= a <= b < |prev + last| ==> (prev + last)[a].chunk <= (prev + last)[b].chunk
  {
    var all := prev + last;
    assert forall a :: 0 <= a < |prev| ==> all[a] == prev[a];
    assert forall a :: |prev| <= a < |all| ==> all[a] == last[a - |prev|];
  }

  /** Each of the k messages is posted, whatever happened to the chunks
      before it. */
  lemma LogPostsAll(v: Variant, msgs: seq<string>, stamps: nat -> string,
                    respond: nat -> Response, k: nat)
    requires k <= |msgs|
    ensures forall j :: 0 <= j < k ==> Post(j, msgs[j]) in Log(v, msgs, stamps, respond, k)
  {
    var block := Block(v, msgs, stamps, respond);
    forall i | 0 <= i < k ensures block(i) != [] && block(i)[0] == Post(i, msgs[i]) {
      ChunkEventsSpec(v, i, msgs[i], stamps(i), respond(i));
    }
    ConcatPosts(block, msgs, k);
  }

  lemma {:induction false} ConcatPosts(block: nat -> seq<Event>, msgs: seq<string>, k: nat)
    requires k <= |msgs|
    requires forall i :: 0 <= i < k ==> block(i) != [] && block(i)[0] == Post(i, msgs[i])
    ensures forall j :: 0 <= j < k ==> Post(j, msgs[j]) in Concat(block, k)
  {
    if k > 0 {
      ConcatPosts(block, msgs, k - 1);
      var prev, last := Concat(block, k - 1), block(k - 1);
      assert (prev + last)[|prev|] == last[0];
    }
  }

  /** In the publishers no post is over 4000 characters. */
  lemma LogPostsFit(v: Variant, chunks: seq<string>, time: string, stamps: nat -> string,
                    respond: nat -> Response, k: nat)
    requires k <= |chunks| && v != Cheapest
    ensures forall e :: e in Log(v, Messages(v, chunks, time), stamps, respond, k) && e.Post? ==> |e.text| <= 4000
  {
    var msgs := Messages(v, chunks, time);
    var block := Block(v, msgs, stamps, respond);
    forall i | 0 <= i < k ensures forall e :: e in block(i) && e.Post? ==> |e.text| <= 4000 {
      OutgoingSpec(v, time, i, |chunks|, chunks[i]);
      ChunkPostsFit(v, i, msgs[i], stamps(i), respond(i));
    }
    ConcatFit(block, k);
  }

  lemma {:induction false} ConcatFit(block: nat -> seq<Event>, k: nat)
    requires forall i :: 0 <= i < k ==> forall e :: e in block(i) && e.Post? ==> |e.text| <= 4000
    ensures forall e :: e in Concat(block, k) && e.Post? ==> |e.text| <= 4000
  {
    if k > 0 {
      ConcatFit(block, k - 1);
    }
  }

  lemma ChunkPostsFit(v: Variant, i: nat, msg: string, stamp: string, r: Response)
    requires |msg| <= 4000
    ensures forall e :: e in ChunkEvents(v, i, msg, stamp, r) && e.Post? ==> |e.text| <= 4000
  {
    if |msg| > 1000 {
      ShortenSpec(msg);
    }
  }

  /** How many of the first k answers reject their post and are saved. */
  function Rejections(respond: nat -> Response, k: nat): nat {
    if k == 0 then 0 else Rejections(respond, k - 1) + (if Saves(respond(k - 1)) then 1 else 0)
  }

  /** One saved file per rejected chunk whose handling does not raise. */
  lemma LogSavedCount(v: Variant, msgs: seq<string>, stamps: nat -> string,
                      respond: nat -> Response, k: nat)
    requires k <= |msgs|
    ensures CountSaved(Log(v, msgs, stamps, respond, k)) == Rejections(respond, k)
  {
    var block := Block(v, msgs, stamps, respond);
    forall i | 0 <= i < k ensures CountSaved(block(i)) == if Saves(respond(i)) then 1 else 0 {
      ChunkEventsSpec(v, i, msgs[i], stamps(i), respond(i));
    }
    ConcatSaved(block, respond, k);
  }

  lemma {:induction false} ConcatSaved(block: nat -> seq<Event>, respond: nat -> Response, k: nat)
    requires forall i :: 0 <= i < k ==> CountSaved(block(i)) == if Saves(respond(i)) then 1 else 0
    ensures CountSaved(Concat(block, k)) == Rejections(respond, k)
  {
    if k > 0 {
      ConcatSaved(block, respond, k - 1);
      CountAppend(Concat(block, k - 1), block(k - 1));
    }
  }
}
