/** Send runs over the outbound mail queue: what becomes of every article over any history of additions and runs. */
module MailQueue {
  import opened Options
  import opened Bytes
  import opened JamBytes
  import opened MailQueueFile

  const MAX_SENT_TRIES: nat := 20
  const TOSSED: u32 := 1
  const EMAIL: u32 := 2

  predicate Tossed(a: Article) { a.attr % 2 == 1 }

  /** An article with the number of the addition that queued it. */
  datatype Item = Item(id: nat, art: Article)

  /** The queue, everything ever added, and every attempt to post so far with its outcome. */
  datatype Queue = Queue(items: seq<Item>, added: seq<Article>, log: seq<(nat, bool)>)

  const EMPTY: Queue := Queue([], [], [])

  // ---------------------------------------------------------------- one run

  /** After an attempt: tossed if it was posted, one more try if not. */
  function Attempt(a: Article, ok: bool): Article {
    if ok then a.(attr := if Tossed(a) then a.attr else a.attr + TOSSED) else a.(tries := Word(a.tries + 1))
  }

  /** An article that the purge keeps. */
  predicate Stays(a: Article) { !Tossed(a) && Signed(a.tries) <= MAX_SENT_TRIES }

  function AttemptAll(items: seq<Item>, ok: seq<bool>): (r: seq<Item>)
    requires |ok| == |items|
    ensures |r| == |items|
  {
    if items == [] then [] else
    var k := |items| - 1;
    AttemptAll(items[..k], ok[..k]) + [Item(items[k].id, Attempt(items[k].art, ok[k]))]
  }

  function Purge(items: seq<Item>): seq<Item> {
    if items == [] then [] else
    var k := |items| - 1;
    Purge(items[..k]) + if Stays(items[k].art) then [items[k]] else []
  }

  function Attempts(items: seq<Item>, ok: seq<bool>): (r: seq<(nat, bool)>)
    requires |ok| == |items|
    ensures |r| == |items|
  {
    if items == [] then [] else
    var k := |items| - 1;
    Attempts(items[..k], ok[..k]) + [(items[k].id, ok[k])]
  }

  /** One send run in which the attempt for the article at place `k` succeeds if `ok[k]`. */
  function Run(q: Queue, ok: seq<bool>): Queue
    requires |ok| == |q.items|
  {
    Queue(Purge(AttemptAll(q.items, ok)), q.added, q.log + Attempts(q.items, ok))
  }

  function Add(q: Queue, a: Article): Queue { Queue(q.items + [Item(|q.added|, Kept(a))], q.added + [a], q.log) }

  // ---------------------------------------------------------------- one article over any history

  /** How often, and how often with success, an article was attempted. */
  function Tries(log: seq<(nat, bool)>, id: nat): nat {
    if log == [] then 0 else Tries(log[..|log| - 1], id) + if log[|log| - 1].0 == id then 1 else 0
  }

  function Posts(log: seq<(nat, bool)>, id: nat): nat {
    if log == [] then 0 else Posts(log[..|log| - 1], id) + if log[|log| - 1] == (id, true) then 1 else 0
  }

  /** An article in the queue was never posted and has failed as often as its counter says, at most 20 times. */
  predicate Waiting(log: seq<(nat, bool)>, item: Item) {
    Posts(log, item.id) == 0 && Tries(log, item.id) == item.art.tries <= MAX_SENT_TRIES && !Tossed(item.art)
  }

  /** Its other fields and its body are those it was added with. */
  predicate Unchanged(added: seq<Article>, item: Item) {
    item.id < |added| && item.art == Kept(added[item.id]).(tries := item.art.tries)
  }

  /** An article that has left was posted once, at the first success, after at most 20 failures, or has failed 21 times. */
  predicate Left(log: seq<(nat, bool)>, id: nat) {
    (Posts(log, id) == 1 && 1 <= Tries(log, id) <= MAX_SENT_TRIES + 1) || (Posts(log, id) == 0 && Tries(log, id) == MAX_SENT_TRIES + 1)
  }

  predicate Queued(items: seq<Item>, id: nat) { exists k :: 0 <= k < |items| && items[k].id == id }

  /** In the order of addition. */
  predicate InOrder(items: seq<Item>, next: nat) {
    && (forall j, k | 0 <= j < k < |items| :: items[j].id < items[k].id)
    && (forall k | 0 <= k < |items| :: items[k].id < next)
  }

  ghost predicate Accounted(q: Queue) {
    && InOrder(q.items, |q.added|)
    && (forall k | 0 <= k < |q.items| :: Waiting(q.log, q.items[k]) && Unchanged(q.added, q.items[k]))
    && (forall id: nat | id < |q.added| && !Queued(q.items, id) :: Left(q.log, id))
    && (forall id: nat | id >= |q.added| :: Tries(q.log, id) == 0 && Posts(q.log, id) == 0)
  }

  // ---------------------------------------------------------------- counting attempts

  lemma {:induction false} CountsAdd(a: seq<(nat, bool)>, b: seq<(nat, bool)>, id: nat)
    ensures Tries(a + b, id) == Tries(a, id) + Tries(b, id) && Posts(a + b, id) == Posts(a, id) + Posts(b, id)
  {
    if b == [] {
      assert a + b == a;
    } else {
      assert (a + b)[..|a + b| - 1] == a + b[..|b| - 1];
      CountsAdd(a, b[..|b| - 1], id);
    }
  }

  /** A run attempts every queued article exactly once, and no other. */
  lemma {:induction false} OneAttempt(items: seq<Item>, ok: seq<bool>, next: nat, k: nat)
    requires |ok| == |items| && InOrder(items, next) && k < |items|
    ensures Tries(Attempts(items, ok), items[k].id) == 1
    ensures Posts(Attempts(items, ok), items[k].id) == if ok[k] then 1 else 0
  {
    var last := |items| - 1;
    var short, log := items[..last], Attempts(items, ok);
    assert log[..last] == Attempts(short, ok[..last]) && log[last] == (items[last].id, ok[last]);
    if k < last {
      assert short[k] == items[k] && ok[..last][k] == ok[k];
      OneAttempt(short, ok[..last], next, k);
    } else {
      NoAttempt(short, ok[..last], items[k].id);
    }
  }

  lemma {:induction false} NoAttempt(items: seq<Item>, ok: seq<bool>, id: nat)
    requires |ok| == |items| && forall k | 0 <= k < |items| :: items[k].id != id
    ensures Tries(Attempts(items, ok), id) == Posts(Attempts(items, ok), id) == 0
  {
    if items != [] {
      var last := |items| - 1;
      var log := Attempts(items, ok);
      assert log[..last] == Attempts(items[..last], ok[..last]);
      NoAttempt(items[..last], ok[..last], id);
    }
  }

  // ---------------------------------------------------------------- who stays

  /** The queue after a run, directly. */
  function Survivors(items: seq<Item>, ok: seq<bool>): seq<Item>
    requires |ok| == |items|
  {
    if items == [] then [] else
    var k := |items| - 1;
    var a := Attempt(items[k].art, ok[k]);
    Survivors(items[..k], ok[..k]) + if Stays(a) then [Item(items[k].id, a)] else []
  }

  lemma {:induction false} PurgeLeavesSurvivors(items: seq<Item>, ok: seq<bool>)
    requires |ok| == |items|
    ensures Purge(AttemptAll(items, ok)) == Survivors(items, ok)
  {
    if items != [] {
      var k := |items| - 1;
      PurgeLeavesSurvivors(items[..k], ok[..k]);
      var all := AttemptAll(items, ok);
      assert all[..k] == AttemptAll(items[..k], ok[..k]);
    }
  }

  /** Item `j` after the run is item `k` before it, attempted. */
  predicate Comes(items: seq<Item>, ok: seq<bool>, after: Item, k: nat)
    requires |ok| == |items|
  {
    k < |items| && after == Item(items[k].id, Attempt(items[k].art, ok[k])) && Stays(after.art)
  }

  lemma InOrderMore(items: seq<Item>, x: Item, next: nat)
    requires InOrder(items, next) && x.id < next && forall j | 0 <= j < |items| :: items[j].id < x.id
    ensures InOrder(items + [x], next)
  {}

  /** Where the survivors stood. */
  function Sources(items: seq<Item>, ok: seq<bool>): (r: seq<nat>)
    requires |ok| == |items|
    ensures |r| == |Survivors(items, ok)|
  {
    if items == [] then [] else
    var k := |items| - 1;
    Sources(items[..k], ok[..k]) + if Stays(Attempt(items[k].art, ok[k])) then [k] else []
  }

  /** Survivors come from the queue. */
  lemma {:induction false} SurvivorsCome(items: seq<Item>, ok: seq<bool>)
    requires |ok| == |items|
    ensures forall j | 0 <= j < |Sources(items, ok)| :: Comes(items, ok, Survivors(items, ok)[j], Sources(items, ok)[j])
  {
    if items != [] {
      var last := |items| - 1;
      var short, okShort := items[..last], ok[..last];
      SurvivorsCome(short, okShort);
      forall j | 0 <= j < |Sources(items, ok)| ensures Comes(items, ok, Survivors(items, ok)[j], Sources(items, ok)[j]) {
        if j < |Sources(short, okShort)| {
          var k := Sources(short, okShort)[j];
          assert Comes(short, okShort, Survivors(short, okShort)[j], k);
          assert short[k] == items[k] && okShort[k] == ok[k];
        }
      }
    }
  }

  lemma {:induction false} SurvivorsInOrder(items: seq<Item>, ok: seq<bool>, next: nat)
    requires |ok| == |items| && InOrder(items, next)
    ensures InOrder(Survivors(items, ok), next)
  {
    if items != [] {
      var last := |items| - 1;
      var short, okShort := items[..last], ok[..last];
      var before, a := Survivors(short, okShort), Attempt(items[last].art, ok[last]);
      SurvivorsInOrder(short, okShort, next);
      SurvivorsCome(short, okShort);
      forall j | 0 <= j < |before| ensures before[j].id < items[last].id {
        var k := Sources(short, okShort)[j];
        assert Comes(short, okShort, before[j], k) && short[k] == items[k];
      }
      if Stays(a) {
        InOrderMore(before, Item(items[last].id, a), next);
      } else {
        assert before + [] == before;
      }
    }
  }

  lemma {:induction false} StayersSurvive(items: seq<Item>, ok: seq<bool>, k: nat)
    requires |ok| == |items| && k < |items| && Stays(Attempt(items[k].art, ok[k]))
    ensures Queued(Survivors(items, ok), items[k].id)
  {
    var last := |items| - 1;
    var before, after := Survivors(items[..last], ok[..last]), Survivors(items, ok);
    if k < last {
      StayersSurvive(items[..last], ok[..last], k);
      var j :| 0 <= j < |before| && before[j].id == items[k].id;
      assert after[j] == before[j];
    } else {
      assert after[|after| - 1].id == items[k].id;
    }
  }

  // ---------------------------------------------------------------- any history

  lemma AttemptTells(a: Article, ok: bool)
    requires a.tries <= MAX_SENT_TRIES && !Tossed(a)
    ensures Stays(Attempt(a, ok)) <==> !ok && a.tries < MAX_SENT_TRIES
    ensures !ok ==> Attempt(a, ok) == a.(tries := a.tries + 1)
  {}

  /** A run keeps the account of one article that was in the queue. */
  lemma ItemAfterRun(q: Queue, ok: seq<bool>, k: nat)
    requires |ok| == |q.items| && Accounted(q) && k < |q.items|
    ensures var log := Run(q, ok).log; var a := Attempt(q.items[k].art, ok[k]);
            if Stays(a) then Waiting(log, Item(q.items[k].id, a)) && Unchanged(q.added, Item(q.items[k].id, a))
            else Left(log, q.items[k].id)
  {
    var item := q.items[k];
    OneAttempt(q.items, ok, |q.added|, k);
    CountsAdd(q.log, Attempts(q.items, ok), item.id);
    assert Waiting(q.log, item) && Unchanged(q.added, item);
    AttemptTells(item.art, ok[k]);
  }

  lemma OthersAfterRun(q: Queue, ok: seq<bool>, id: nat)
    requires |ok| == |q.items| && !Queued(q.items, id)
    ensures Tries(Run(q, ok).log, id) == Tries(q.log, id) && Posts(Run(q, ok).log, id) == Posts(q.log, id)
  {
    NoAttempt(q.items, ok, id);
    CountsAdd(q.log, Attempts(q.items, ok), id);
  }

  lemma RunIsAccounted(q: Queue, ok: seq<bool>)
    requires |ok| == |q.items| && Accounted(q)
    ensures Accounted(Run(q, ok))
  {
    var r := Run(q, ok);
    PurgeLeavesSurvivors(q.items, ok);
    SurvivorsInOrder(q.items, ok, |q.added|);
    SurvivorsCome(q.items, ok);
    forall j | 0 <= j < |r.items| ensures Waiting(r.log, r.items[j]) && Unchanged(r.added, r.items[j]) {
      var k := Sources(q.items, ok)[j];
      assert Comes(q.items, ok, r.items[j], k);
      ItemAfterRun(q, ok, k);
    }
    forall id: nat | id < |q.added| && !Queued(r.items, id) ensures Left(r.log, id) {
      if Queued(q.items, id) {
        var k :| 0 <= k < |q.items| && q.items[k].id == id;
        ItemAfterRun(q, ok, k);
        if Stays(Attempt(q.items[k].art, ok[k])) { StayersSurvive(q.items, ok, k); }
      } else {
        OthersAfterRun(q, ok, id);
      }
    }
    forall id: nat | id >= |q.added| ensures Tries(r.log, id) == 0 && Posts(r.log, id) == 0 {
      assert !Queued(q.items, id);
      OthersAfterRun(q, ok, id);
    }
  }

  /** A message as it is queued: never tried, not posted. */
  predicate Fresh(a: Article) { a.tries == 0 && !Tossed(a) }

  lemma AddIsQueued(q: Queue, a: Article, id: nat)
    requires Queued(q.items, id) || id == |q.added|
    ensures Queued(Add(q, a).items, id)
  {
    var items := Add(q, a).items;
    if id == |q.added| {
      assert items[|q.items|].id == id;
    } else {
      var k :| 0 <= k < |q.items| && q.items[k].id == id;
      assert items[k].id == id;
    }
  }

  lemma AddIsAccounted(q: Queue, a: Article)
    requires Accounted(q) && Fresh(a)
    ensures Accounted(Add(q, a))
  {
    var r := Add(q, a);
    forall id: nat | Queued(q.items, id) || id == |q.added| ensures Queued(r.items, id) { AddIsQueued(q, a, id); }
    forall k | 0 <= k < |r.items| ensures Waiting(r.log, r.items[k]) && Unchanged(r.added, r.items[k]) {
      if k < |q.items| { assert Unchanged(q.added, q.items[k]) && Waiting(q.log, q.items[k]); }
    }
  }

  /** An addition, or a run with some outcome for each place in the queue. */
  datatype Event = Adding(a: Article) | Running(ok: nat -> bool)

  function Outcomes(ok: nat -> bool, n: nat): (r: seq<bool>) ensures |r| == n { seq(n, i requires 0 <= i < n => ok(i)) }

  function After(events: seq<Event>): Queue {
    if events == [] then EMPTY else
    var q := After(events[..|events| - 1]);
    match events[|events| - 1]
    case Adding(a) => Add(q, a)
    case Running(ok) => Run(q, Outcomes(ok, |q.items|))
  }

  predicate AllFresh(events: seq<Event>) { forall i | 0 <= i < |events| && events[i].Adding? :: Fresh(events[i].a) }

  lemma {:induction false} AlwaysAccounted(events: seq<Event>)
    requires AllFresh(events)
    ensures Accounted(After(events))
  {
    if events != [] {
      var last := |events| - 1;
      AlwaysAccounted(events[..last]);
      var q := After(events[..last]);
      match events[last]
      case Adding(a) => AddIsAccounted(q, a);
      case Running(ok) => RunIsAccounted(q, Outcomes(ok, |q.items|));
    }
  }

  /** Over every history each article is posted at most once and attempted at most 21 times; it is in the queue exactly
      as long as it has not been posted and has failed at most 20 times; there it keeps its place and its contents. */
  lemma EveryArticleIsAccountedFor(events: seq<Event>, id: nat)
    requires AllFresh(events) && id < |After(events).added|
    ensures var q := After(events);
            && Posts(q.log, id) <= 1 && Tries(q.log, id) <= MAX_SENT_TRIES + 1
            && (Queued(q.items, id) <==> Posts(q.log, id) == 0 && Tries(q.log, id) <= MAX_SENT_TRIES)
            && (forall j, k | 0 <= j < k < |q.items| :: q.items[j].id < q.items[k].id)
            && (forall k | 0 <= k < |q.items| && q.items[k].id == id :: q.items[k].art == Kept(q.added[id]).(tries := Tries(q.log, id)))
  {
    AlwaysAccounted(events);
    var q := After(events);
    if Queued(q.items, id) {
      var k :| 0 <= k < |q.items| && q.items[k].id == id;
      assert Waiting(q.log, q.items[k]);
    }
    forall k | 0 <= k < |q.items| && q.items[k].id == id ensures q.items[k].art == Kept(q.added[id]).(tries := Tries(q.log, id)) {
      assert Waiting(q.log, q.items[k]) && Unchanged(q.added, q.items[k]);
    }
  }

  // ---------------------------------------------------------------- the queue in its file

  function Articles(items: seq<Item>): (r: seq<Article>)
    ensures |r| == |items| && forall k | 0 <= k < |items| :: r[k] == items[k].art
  {
    seq(|items|, k requires 0 <= k < |items| => items[k].art)
  }

  predicate AllItemsSettled(items: seq<Item>) { forall k | 0 <= k < |items| :: Settled(items[k].art) }

  lemma QueueIsSettled(q: Queue)
    requires Accounted(q)
    ensures AllItemsSettled(q.items)
  {
    forall k | 0 <= k < |q.items| ensures Settled(q.items[k].art) {
      assert Unchanged(q.added, q.items[k]);
      KeptIsSettled(q.added[q.items[k].id]);
    }
  }

  lemma {:induction false} AttemptsSettle(items: seq<Item>, ok: seq<bool>)
    requires |ok| == |items| && AllItemsSettled(items)
    ensures AllItemsSettled(AttemptAll(items, ok)) && AllItemsSettled(Purge(AttemptAll(items, ok)))
  {
    if items != [] {
      var last := |items| - 1;
      AttemptsSettle(items[..last], ok[..last]);
      var all := AttemptAll(items, ok);
      assert all[..last] == AttemptAll(items[..last], ok[..last]);
      AttemptSettles(items[last].art, ok[last]);
    }
  }

  lemma AttemptSettles(a: Article, ok: bool)
    requires Settled(a)
    ensures Settled(Attempt(a, ok))
  {}

  /** A file of settled articles reads back as they are. */
  lemma SettledFile(items: seq<Item>)
    requires AllItemsSettled(items)
    ensures Decode(EncodeAll(Articles(items))) == Some(Articles(items))
    ensures KeptAll(Articles(items)) == Articles(items) && AllSized(Articles(items))
  {
    SettledStay(Articles(items));
    FileReadsBack(Articles(items));
  }

  /** One more article behind the file is one more in the queue. */
  lemma AddExtendsFile(raw: seq<Article>, q: Queue, a: Article, code: text)
    requires AllSized(raw) && KeptAll(raw) == Articles(q.items) && Accounted(q) && Fresh(a) && Sized(a) && code == Encode(a)
    ensures EncodeAll(raw + [a]) == EncodeAll(raw) + code && AllSized(raw + [a])
    ensures KeptAll(raw + [a]) == Articles(Add(q, a).items) && Accounted(Add(q, a))
  {
    OneMore(raw, a, code);
    AddIsAccounted(q, a);
    KeptBehind(raw, a);
    ArticlesBehind(q.items, Item(|q.added|, Kept(a)));
  }

  lemma ArticlesBehind(items: seq<Item>, x: Item)
    ensures Articles(items + [x]) == Articles(items) + [x.art]
  {}

  /** What a run needs of the queue, and what it leaves. */
  lemma RunLeavesFile(q: Queue, ok: seq<bool>)
    requires Accounted(q) && |ok| == |q.items|
    ensures Accounted(Run(q, ok)) && AllItemsSettled(AttemptAll(q.items, ok))
    ensures var arts := Articles(Run(q, ok).items); KeptAll(arts) == arts && AllSized(arts)
  {
    QueueIsSettled(q);
    AttemptsSettle(q.items, ok);
    RunIsAccounted(q, ok);
    SettledFile(Purge(AttemptAll(q.items, ok)));
  }

  class Outbox {
    var file: text
    ghost var q: Queue
    ghost var raw: seq<Article>   // the articles as they were written

    /** Reading the file gives the queue. */
    ghost predicate Valid()
      reads this
    {
      file == EncodeAll(raw) && AllSized(raw) && KeptAll(raw) == Articles(q.items) && Accounted(q)
    }

    constructor ()
      ensures Valid() && q == EMPTY
    {
      file, q, raw := [], EMPTY, [];
    }

    /** Queues one message. */
    method AddMsg(group: text, area: u32, number: u32, body: text, isEmail: bool)
      requires Valid() && |Terminated(body)| < 0x8000_0000
      modifies this
      ensures Valid() && q == Add(old(q), Article(group, number, area, if isEmail then EMAIL else 0, 0, body))
    {
      var a := Article(group, number, area, if isEmail then EMAIL else 0, 0, body);
      var code := WriteOne(a);
      AddExtendsFile(raw, q, a, code);
      file := file + code;
      raw, q := raw + [a], Add(q, a);
    }

    /** One send run; `ok` says which attempts succeed. If the server cannot be reached nothing changes. */
    method Send(connected: bool, ok: nat -> bool)
      requires Valid()
      modifies this
      ensures Valid() && q == if connected then Run(old(q), Outcomes(ok, |old(q).items|)) else old(q)
    {
      ghost var oks := Outcomes(ok, |q.items|);
      FileReadsBack(raw);
      var read := ReadNews(file);
      if !connected {
        return;
      }
      RunLeavesFile(q, oks);
      var tried := AttemptEach(read.value, ok, q.items);
      var written := WriteNews(tried);
      file := PurgeSentBase(written, AttemptAll(q.items, oks));
      q, raw := Run(q, oks), Articles(Run(q, oks).items);
    }
  }

  lemma AttemptOne(items: seq<Item>, ok: nat -> bool, i: nat)
    requires i < |items|
    ensures Articles(AttemptAll(items[..i + 1], Outcomes(ok, i + 1))) ==
            Articles(AttemptAll(items[..i], Outcomes(ok, i))) + [Attempt(items[i].art, ok(i))]
    ensures Articles(items)[i] == items[i].art
  {
    var all := AttemptAll(items[..i + 1], Outcomes(ok, i + 1));
    assert items[..i + 1][..i] == items[..i] && Outcomes(ok, i + 1)[..i] == Outcomes(ok, i);
    assert all[..i] == AttemptAll(items[..i], Outcomes(ok, i));
  }

  /** The loop over the articles of a run. */
  method AttemptEach(arts: seq<Article>, ok: nat -> bool, ghost items: seq<Item>) returns (tried: seq<Article>)
    requires arts == Articles(items)
    ensures tried == Articles(AttemptAll(items, Outcomes(ok, |items|)))
  {
    tried := [];
    for i := 0 to |arts|
      invariant tried == Articles(AttemptAll(items[..i], Outcomes(ok, i)))
    {
      AttemptOne(items, ok, i);
      var a := arts[i];
      if ok(i) {
        if !Tossed(a) { a := a.(attr := a.attr + TOSSED); }
      } else {
        a := a.(tries := Word(a.tries + 1));
      }
      tried := tried + [a];
    }
    assert items[..|items|] == items;
  }

  /** Drops the posted articles, and those tried too often. */
  method PurgeSentBase(file: text, ghost items: seq<Item>) returns (kept: text)
    requires file == EncodeAll(Articles(items)) && AllItemsSettled(items)
    ensures kept == EncodeAll(Articles(Purge(items)))
  {
    SettledFile(items);
    var read := ReadNews(file);
    var keep := KeepEach(read.value, items);
    kept := WriteNews(keep);
  }

  lemma PurgeOne(items: seq<Item>, i: nat)
    requires i < |items|
    ensures Articles(Purge(items[..i + 1])) == Articles(Purge(items[..i])) + if Stays(items[i].art) then [items[i].art] else []
    ensures Articles(items)[i] == items[i].art
  {
    assert items[..i + 1][..i] == items[..i];
    var before := Purge(items[..i]);
    if Stays(items[i].art) {
      assert Articles(before + [items[i]]) == Articles(before) + [items[i].art];
    } else {
      assert before + [] == before;
    }
  }

  method KeepEach(arts: seq<Article>, ghost items: seq<Item>) returns (keep: seq<Article>)
    requires arts == Articles(items)
    ensures keep == Articles(Purge(items))
  {
    keep := [];
    for i := 0 to |arts|
      invariant keep == Articles(Purge(items[..i]))
    {
      PurgeOne(items, i);
      var a := arts[i];
      if Tossed(a) {
        continue;
      }
      if Signed(a.tries) > MAX_SENT_TRIES {
        continue;
      }
      keep := keep + [a];
    }
    assert items[..|items|] == items;
  }
}
