/** The observable behaviour of the holder-count watcher, as plans of effects.

    Every call the watcher makes to the chat gateway, the holder-count
    provider, the metrics gauge or the clock is an `Effect`; the outcome of
    each such call is an input. The functions here say which effects one
    polling tick and one run of the loop produce, and the lemmas state what
    the watcher promises about them. */
module HolderPlan {
  import opened Wrappers
  import opened HolderText

  /** A Go `int` (64 bits). */
  type Int64 = x: int | -0x8000_0000_0000_0000 <= x < 0x8000_0000_0000_0000

  /** `UserGuilds(100, "", "")`: only the first page of guilds is asked for. */
  const GuildPageLimit: nat := 100

  /** Label of the metric series that is not tied to one guild. */
  const NoGuild: string := "None"

  const NanosPerSecond: nat := 1_000_000_000

  datatype Guild = Guild(id: string, name: string)

  /** The label set of one series of the `lastUpdate` gauge. */
  datatype Labels = Labels(kind: string, ticker: string, guild: string)

  function MetricLabels(ticker: string, guild: string): Labels
  {
    Labels("holders", ticker, guild)
  }

  /** One call made by the watcher, in the order it is made. */
  datatype Effect =
    | SetMetricZero(labels: Labels)              // gauge `Set(0)`
    | SetActivity(status: string)                // `UpdateWatchStatus(0, status)`
    | ListGuilds(limit: nat)                     // `UserGuilds(limit, "", "")`
    | Rename(name: string)                       // `setName(dg, name)`
    | Fetch                                      // `utils.GetHolders(network, address, token)`
    | SetNickname(guildId: string, nick: string) // `GuildMemberNickname(guildId, "@me", nick)`
    | MetricNow(labels: Labels)                  // gauge `SetToCurrentTime()`
    | Sleep(seconds: int)                        // `time.Sleep(seconds * time.Second)`
  {
    function Kind(): Kind
    {
      match this
      case SetMetricZero(_) => MetricZeroCall
      case SetActivity(_) => ActivityCall
      case ListGuilds(_) => ListGuildsCall
      case Rename(_) => RenameCall
      case Fetch => FetchCall
      case SetNickname(_, _) => NicknameCall
      case MetricNow(_) => MetricNowCall
      case Sleep(_) => SleepCall
    }
  }

  /** The kinds of effect, used to select the calls of one kind from a trace. */
  datatype Kind =
    MetricZeroCall | ActivityCall | ListGuildsCall | RenameCall | FetchCall | NicknameCall | MetricNowCall | SleepCall

  /** The effects of kind `k` in `es`, in their order. */
  function Only(es: seq<Effect>, k: Kind): (r: seq<Effect>)
    ensures |r| <= |es|
    ensures forall i :: 0 <= i < |r| ==> r[i].Kind() == k
  {
    if es == [] then [] else (if es[0].Kind() == k then [es[0]] else []) + Only(es[1..], k)
  }

  lemma OnlyCons(e: Effect, es: seq<Effect>, k: Kind)
    ensures Only([e] + es, k) == (if e.Kind() == k then [e] else []) + Only(es, k)
  {
    assert ([e] + es)[1..] == es;
  }

  lemma OnlySingle(e: Effect, k: Kind)
    ensures Only([e], k) == if e.Kind() == k then [e] else []
  {
    assert [e][1..] == [];
  }

  lemma {:induction false} OnlyConcat(a: seq<Effect>, b: seq<Effect>, k: Kind)
    ensures Only(a + b, k) == Only(a, k) + Only(b, k)
  {
    if a == [] {
      assert a + b == b;
    } else {
      assert (a + b)[1..] == a[1..] + b;
      OnlyConcat(a[1..], b, k);
    }
  }

  /** What the world answers during one tick: the holder count (or an
      error), the answer to the nickname call in the i-th guild, and the
      answer to the status update. */
  datatype TickOutcome = TickOutcome(fetch: Result<int>, nicknameOk: nat -> bool, activityOk: bool)

  /** What the loop's `select` receives: a timer tick, or the token that
      `Shutdown` sent. */
  datatype Event = Tick(outcome: TickOutcome) | Shutdown

  /** The part of the watcher's state a tick reads once startup is over. */
  datatype Settings = Settings(ticker: string, nickname: bool, guilds: seq<Guild>, frequency: int)

  /** The effects of updating the nickname in guild `g`: the call, and, only
      when it succeeded, the guild's timestamp and the rate-limiting sleep. */
  function GuildEffects(s: Settings, text: string, g: Guild, ok: bool): seq<Effect>
  {
    [SetNickname(g.id, text)]
      + (if ok then [MetricNow(MetricLabels(s.ticker, g.name)), Sleep(s.frequency)] else [])
  }

  /** The effects of the nickname fan-out over guilds `lo` to `hi - 1`. */
  function FanOut(s: Settings, text: string, ok: nat -> bool, lo: nat, hi: nat): seq<Effect>
    requires lo <= hi <= |s.guilds|
    decreases hi
  {
    if lo == hi then []
    else FanOut(s, text, ok, lo, hi - 1) + GuildEffects(s, text, s.guilds[hi - 1], ok(hi - 1))
  }

  /** The effects of one timer tick. */
  function TickEffects(s: Settings, t: TickOutcome): (r: seq<Effect>)
    ensures r != [] && r[0] == Fetch
  {
    [Fetch] +
      match t.fetch
      case Err => []
      case Ok(count) =>
        if s.nickname then FanOut(s, Decimal(count), t.nicknameOk, 0, |s.guilds|)
        else [SetActivity(Decimal(count))]
               + (if t.activityOk then [MetricNow(MetricLabels(s.ticker, NoGuild))] else [])
  }

  /** Whether some event of `events` is the shutdown token. */
  predicate HasShutdown(events: seq<Event>)
  {
    exists k :: 0 <= k < |events| && events[k].Shutdown?
  }

  /** The effects of the loop over `events`: ticks until the shutdown token. */
  function RunEffects(s: Settings, events: seq<Event>): seq<Effect>
  {
    if events == [] then []
    else match events[0]
      case Shutdown => []
      case Tick(t) => TickEffects(s, t) + RunEffects(s, events[1..])
  }

  /** The number of guilds among the first `n` whose nickname call succeeded. */
  function Successes(ok: nat -> bool, n: nat): (c: nat)
    ensures c <= n
  {
    if n == 0 then 0 else Successes(ok, n - 1) + (if ok(n - 1) then 1 else 0)
  }

  /** The timestamps of a fan-out over the first `n` guilds: one labelled with
      the guild's name for each guild whose nickname call succeeded, in list
      order. */
  function Stamps(s: Settings, ok: nat -> bool, n: nat): (r: seq<Effect>)
    requires n <= |s.guilds|
    ensures |r| == Successes(ok, n)
  {
    if n == 0 then []
    else
      var stamp := if ok(n - 1) then [MetricNow(MetricLabels(s.ticker, s.guilds[n - 1].name))] else [];
      Stamps(s, ok, n - 1) + stamp
  }

  /** The nickname calls of a fan-out over `guilds`: one per guild, in list
      order, each with the same text. */
  function NicknameCalls(guilds: seq<Guild>, text: string): (r: seq<Effect>)
    ensures |r| == |guilds|
    ensures forall i :: 0 <= i < |guilds| ==> r[i] == SetNickname(guilds[i].id, text)
  {
    seq(|guilds|, i requires 0 <= i < |guilds| => SetNickname(guilds[i].id, text))
  }

  lemma NicknameCallsSnoc(guilds: seq<Guild>, g: Guild, text: string)
    ensures NicknameCalls(guilds + [g], text) == NicknameCalls(guilds, text) + [SetNickname(g.id, text)]
  {
    var l, r := NicknameCalls(guilds + [g], text), NicknameCalls(guilds, text) + [SetNickname(g.id, text)];
    assert forall i :: 0 <= i < |l| ==> l[i] == r[i];
  }

  /** The largest number of seconds whose `Duration` fits in 64 bits. */
  const MaxDurationSeconds: int := 9_223_372_036

  /** The `Duration` handed to `time.NewTicker` and `time.Sleep`: seconds
      times 10^9 in 64-bit arithmetic, which wraps around. */
  function DurationOf(seconds: Int64): (d: Int64)
    ensures -MaxDurationSeconds <= seconds <= MaxDurationSeconds ==> d == seconds * NanosPerSecond
  {
    var x := seconds * NanosPerSecond;
    assert -MaxDurationSeconds <= seconds <= MaxDurationSeconds
      ==> 0 <= x + 0x8000_0000_0000_0000 < 0x1_0000_0000_0000_0000;
    (x + 0x8000_0000_0000_0000) % 0x1_0000_0000_0000_0000 - 0x8000_0000_0000_0000
  }

  /** Whether `time.NewTicker` panics for a polling interval of `frequency`
      seconds: it refuses a non-positive `Duration`. */
  predicate TickerPanics(frequency: Int64)
  {
    DurationOf(frequency) <= 0
  }

  /** Within the range where no wrap-around happens, the ticker panics exactly
      for a non-positive interval. */
  lemma TickerPanicsIff(frequency: Int64)
    requires -MaxDurationSeconds <= frequency <= MaxDurationSeconds
    ensures TickerPanics(frequency) <==> frequency <= 0
  {
  }

  // ---------------------------------------------------------------------
  // The fan-out.

  lemma {:induction false} FanOutSplit(s: Settings, text: string, ok: nat -> bool, lo: nat, mid: nat, hi: nat)
    requires lo <= mid <= hi <= |s.guilds|
    ensures FanOut(s, text, ok, lo, hi) == FanOut(s, text, ok, lo, mid) + FanOut(s, text, ok, mid, hi)
    decreases hi
  {
    if mid < hi {
      FanOutSplit(s, text, ok, lo, mid, hi - 1);
    }
  }

  /** A non-empty fan-out starts with the nickname call of its first guild. */
  lemma {:induction false} FanOutStart(s: Settings, text: string, ok: nat -> bool, lo: nat, hi: nat)
    requires lo < hi <= |s.guilds|
    ensures |FanOut(s, text, ok, lo, hi)| > 0
    ensures FanOut(s, text, ok, lo, hi)[0] == SetNickname(s.guilds[lo].id, text)
    decreases hi
  {
    if lo < hi - 1 {
      FanOutStart(s, text, ok, lo, hi - 1);
    }
  }

  /** Guild `i` in a fan-out: its nickname call comes right after the effects of
      the guilds before it, and a timestamp labelled with its name followed by a
      sleep of the polling interval comes right after that call exactly when the
      call succeeded. */
  lemma GuildStep(s: Settings, text: string, ok: nat -> bool, i: nat)
    requires i < |s.guilds|
    ensures var f, p := FanOut(s, text, ok, 0, |s.guilds|), |FanOut(s, text, ok, 0, i)|;
      && p < |f| && f[p] == SetNickname(s.guilds[i].id, text)
      && (ok(i) <==>
            p + 2 < |f|
            && f[p + 1] == MetricNow(MetricLabels(s.ticker, s.guilds[i].name))
            && f[p + 2] == Sleep(s.frequency))
  {
    var n := |s.guilds|;
    FanOutSplit(s, text, ok, 0, i + 1, n);
    var before, here, after :=
      FanOut(s, text, ok, 0, i), GuildEffects(s, text, s.guilds[i], ok(i)), FanOut(s, text, ok, i + 1, n);
    var f := FanOut(s, text, ok, 0, n);
    assert f == before + here + after;
    var p := |before|;
    if !ok(i) && p + 1 < |f| {
      FanOutStart(s, text, ok, i + 1, n);
      assert f[p + 1] == after[0];
    }
  }

  /** A fan-out makes one nickname call per guild, in list order, all with the
      same text. */
  lemma {:induction false} FanOutNicknames(s: Settings, text: string, ok: nat -> bool, n: nat)
    requires n <= |s.guilds|
    ensures Only(FanOut(s, text, ok, 0, n), NicknameCall) == NicknameCalls(s.guilds[..n], text)
  {
    if n > 0 {
      var g := s.guilds[n - 1];
      FanOutNicknames(s, text, ok, n - 1);
      FanOutKindStep(s, text, ok, n, NicknameCall);
      GuildKind(s, text, g, ok(n - 1), NicknameCall);
      assert s.guilds[..n] == s.guilds[..n - 1] + [g];
      NicknameCallsSnoc(s.guilds[..n - 1], g, text);
    }
  }

  /** The calls of kind `k` made for one guild. */
  lemma GuildKind(s: Settings, text: string, g: Guild, ok: bool, k: Kind)
    ensures Only(GuildEffects(s, text, g, ok), k)
         == (if k == NicknameCall then [SetNickname(g.id, text)] else [])
          + (if k == MetricNowCall && ok then [MetricNow(MetricLabels(s.ticker, g.name))] else [])
          + (if k == SleepCall && ok then [Sleep(s.frequency)] else [])
  {
    var rest := if ok then [MetricNow(MetricLabels(s.ticker, g.name)), Sleep(s.frequency)] else [];
    OnlyCons(SetNickname(g.id, text), rest, k);
    if ok {
      OnlyCons(MetricNow(MetricLabels(s.ticker, g.name)), [Sleep(s.frequency)], k);
      OnlyCons(Sleep(s.frequency), [], k);
    }
  }

  /** How the calls of kind `k` grow when the fan-out covers one more guild. */
  lemma FanOutKindStep(s: Settings, text: string, ok: nat -> bool, n: nat, k: Kind)
    requires 0 < n <= |s.guilds|
    ensures Only(FanOut(s, text, ok, 0, n), k)
         == Only(FanOut(s, text, ok, 0, n - 1), k) + Only(GuildEffects(s, text, s.guilds[n - 1], ok(n - 1)), k)
  {
    OnlyConcat(FanOut(s, text, ok, 0, n - 1), GuildEffects(s, text, s.guilds[n - 1], ok(n - 1)), k);
  }

  /** A fan-out records one timestamp per successful guild, labelled with that
      guild's name, in list order. */
  lemma {:induction false} FanOutTimestamps(s: Settings, text: string, ok: nat -> bool, n: nat)
    requires n <= |s.guilds|
    ensures Only(FanOut(s, text, ok, 0, n), MetricNowCall) == Stamps(s, ok, n)
  {
    if n > 0 {
      FanOutTimestamps(s, text, ok, n - 1);
      FanOutKindStep(s, text, ok, n, MetricNowCall);
      GuildKind(s, text, s.guilds[n - 1], ok(n - 1), MetricNowCall);
    }
  }

  /** A fan-out sleeps one polling interval per successful guild. */
  lemma {:induction false} FanOutSleeps(s: Settings, text: string, ok: nat -> bool, n: nat)
    requires n <= |s.guilds|
    ensures Only(FanOut(s, text, ok, 0, n), SleepCall) == seq(Successes(ok, n), _ => Sleep(s.frequency))
  {
    if n > 0 {
      FanOutSleeps(s, text, ok, n - 1);
      FanOutKindStep(s, text, ok, n, SleepCall);
      GuildKind(s, text, s.guilds[n - 1], ok(n - 1), SleepCall);
    }
  }

  /** Besides nickname calls, timestamps and sleeps, a fan-out makes no call. */
  lemma {:induction false} FanOutOthers(s: Settings, text: string, ok: nat -> bool, n: nat, k: Kind)
    requires n <= |s.guilds|
    requires k != NicknameCall && k != MetricNowCall && k != SleepCall
    ensures Only(FanOut(s, text, ok, 0, n), k) == []
  {
    if n > 0 {
      FanOutOthers(s, text, ok, n - 1, k);
      FanOutKindStep(s, text, ok, n, k);
      GuildKind(s, text, s.guilds[n - 1], ok(n - 1), k);
    }
  }

  // ---------------------------------------------------------------------
  // One tick.

  /** A tick whose holder fetch failed makes no other call. */
  lemma FailedFetchTick(s: Settings, t: TickOutcome)
    requires t.fetch.Err?
    ensures forall k :: k != FetchCall ==> Only(TickEffects(s, t), k) == []
    ensures Only(TickEffects(s, t), FetchCall) == [Fetch]
  {
    assert TickEffects(s, t) == [Fetch];
  }

  /** In nickname mode a successful tick makes one nickname call per guild in
      list order with the decimal count, one timestamp labelled with the guild's
      name and one sleep of the polling interval per successful guild, and no
      status update. */
  lemma NicknameTick(s: Settings, t: TickOutcome)
    requires s.nickname && t.fetch.Ok?
    ensures Only(TickEffects(s, t), NicknameCall) == NicknameCalls(s.guilds, Decimal(t.fetch.value))
    ensures Only(TickEffects(s, t), MetricNowCall) == Stamps(s, t.nicknameOk, |s.guilds|)
    ensures Only(TickEffects(s, t), SleepCall) == seq(Successes(t.nicknameOk, |s.guilds|), _ => Sleep(s.frequency))
    ensures Only(TickEffects(s, t), ActivityCall) == []
    ensures Only(TickEffects(s, t), FetchCall) == [Fetch]
  {
    var text := Decimal(t.fetch.value);
    var f := FanOut(s, text, t.nicknameOk, 0, |s.guilds|);
    assert TickEffects(s, t) == [Fetch] + f;
    FanOutNicknames(s, text, t.nicknameOk, |s.guilds|);
    FanOutTimestamps(s, text, t.nicknameOk, |s.guilds|);
    FanOutSleeps(s, text, t.nicknameOk, |s.guilds|);
    FanOutOthers(s, text, t.nicknameOk, |s.guilds|, ActivityCall);
    FanOutOthers(s, text, t.nicknameOk, |s.guilds|, FetchCall);
    assert s.guilds[..|s.guilds|] == s.guilds;
    OnlyConcat([Fetch], f, NicknameCall);
    OnlyConcat([Fetch], f, MetricNowCall);
    OnlyConcat([Fetch], f, SleepCall);
    OnlyConcat([Fetch], f, ActivityCall);
    OnlyConcat([Fetch], f, FetchCall);
  }

  /** The calls of kind `k` in a successful status-mode tick. */
  lemma ActivityTickKind(s: Settings, t: TickOutcome, k: Kind)
    requires !s.nickname && t.fetch.Ok?
    ensures Only(TickEffects(s, t), k)
         == (if k == FetchCall then [Fetch] else [])
          + (if k == ActivityCall then [SetActivity(Decimal(t.fetch.value))] else [])
          + (if k == MetricNowCall && t.activityOk then [MetricNow(MetricLabels(s.ticker, NoGuild))] else [])
  {
    var text := Decimal(t.fetch.value);
    var stamp := if t.activityOk then [MetricNow(MetricLabels(s.ticker, NoGuild))] else [];
    assert TickEffects(s, t) == [Fetch] + ([SetActivity(text)] + stamp);
    OnlyCons(Fetch, [SetActivity(text)] + stamp, k);
    OnlyCons(SetActivity(text), stamp, k);
  }

  /** In status mode a successful tick makes exactly one status update with the
      decimal count, and records one `None` timestamp exactly when it succeeded. */
  lemma ActivityTick(s: Settings, t: TickOutcome)
    requires !s.nickname && t.fetch.Ok?
    ensures Only(TickEffects(s, t), ActivityCall) == [SetActivity(Decimal(t.fetch.value))]
    ensures Only(TickEffects(s, t), MetricNowCall)
         == if t.activityOk then [MetricNow(MetricLabels(s.ticker, NoGuild))] else []
    ensures Only(TickEffects(s, t), NicknameCall) == []
    ensures Only(TickEffects(s, t), SleepCall) == []
    ensures Only(TickEffects(s, t), FetchCall) == [Fetch]
  {
    ActivityTickKind(s, t, ActivityCall);
    ActivityTickKind(s, t, MetricNowCall);
    ActivityTickKind(s, t, NicknameCall);
    ActivityTickKind(s, t, SleepCall);
    ActivityTickKind(s, t, FetchCall);
  }

  /** Three guilds, the second refusing the nickname, and a count of 42: one
      fetch, three nickname calls "42" in list order, and a timestamp and a
      sleep after the first and the third only. */
  lemma ThreeGuildTick()
    ensures var a, b, c := Guild("1", "A"), Guild("2", "B"), Guild("3", "C");
      TickEffects(Settings("eth-0xa1", true, [a, b, c], 60), TickOutcome(Ok(42), i => i != 1, false))
        == [Fetch,
            SetNickname("1", "42"), MetricNow(Labels("holders", "eth-0xa1", "A")), Sleep(60),
            SetNickname("2", "42"),
            SetNickname("3", "42"), MetricNow(Labels("holders", "eth-0xa1", "C")), Sleep(60)]
  {
    var a, b, c := Guild("1", "A"), Guild("2", "B"), Guild("3", "C");
    var s := Settings("eth-0xa1", true, [a, b, c], 60);
    var ok := (i: nat) => i != 1;
    assert Digits(42) == Digits(4) + [DigitChar(2)];
    assert Decimal(42) == "42";
    var f1 := FanOut(s, "42", ok, 0, 1);
    var f2 := FanOut(s, "42", ok, 0, 2);
    assert f1 == GuildEffects(s, "42", a, true);
    assert f2 == f1 + GuildEffects(s, "42", b, false);
    assert FanOut(s, "42", ok, 0, 3) == f2 + GuildEffects(s, "42", c, true);
  }

  // ---------------------------------------------------------------------
  // The loop.

  /** Once the shutdown token is taken, later events add nothing. */
  lemma {:induction false} NothingAfterShutdown(s: Settings, before: seq<Event>, after: seq<Event>)
    ensures RunEffects(s, before + [Shutdown] + after) == RunEffects(s, before)
  {
    if before != [] {
      assert (before + [Shutdown] + after)[1..] == before[1..] + [Shutdown] + after;
      NothingAfterShutdown(s, before[1..], after);
    }
  }

  /** Before the shutdown token, one more tick appends exactly that tick's
      effects, and still no shutdown has been seen. */
  lemma {:induction false} TickAppends(s: Settings, before: seq<Event>, t: TickOutcome)
    requires !HasShutdown(before)
    ensures RunEffects(s, before + [Tick(t)]) == RunEffects(s, before) + TickEffects(s, t)
    ensures !HasShutdown(before + [Tick(t)])
  {
    var extended := before + [Tick(t)];
    assert forall k :: 0 <= k < |before| ==> extended[k] == before[k];
    if before != [] {
      assert !before[0].Shutdown?;
      assert !HasShutdown(before[1..]) by {
        forall k | 0 <= k < |before[1..]| ensures !before[1..][k].Shutdown? {
          assert before[1..][k] == before[k + 1];
        }
      }
      assert extended[1..] == before[1..] + [Tick(t)];
      TickAppends(s, before[1..], t);
    } else {
      assert extended == [Tick(t)];
    }
  }

  /** The loop after the first `i + 1` events, when event `i` is a tick and no
      shutdown came before it. */
  lemma TickAt(s: Settings, events: seq<Event>, i: nat)
    requires i < |events| && events[i].Tick?
    requires !HasShutdown(events[..i])
    ensures RunEffects(s, events[..i + 1]) == RunEffects(s, events[..i]) + TickEffects(s, events[i].outcome)
    ensures !HasShutdown(events[..i + 1])
  {
    assert events[..i + 1] == events[..i] + [Tick(events[i].outcome)];
    TickAppends(s, events[..i], events[i].outcome);
  }

  /** The loop over `events` when event `i` is the shutdown token: the effects
      of the events before it. */
  lemma ShutdownAt(s: Settings, events: seq<Event>, i: nat)
    requires i < |events| && events[i].Shutdown?
    ensures RunEffects(s, events) == RunEffects(s, events[..i])
    ensures HasShutdown(events)
  {
    assert events == events[..i] + [Shutdown] + events[i + 1..];
    NothingAfterShutdown(s, events[..i], events[i + 1..]);
  }

  /** Without a shutdown the loop fetches the holder count once per tick,
      failed fetches included. */
  lemma {:induction false} OneFetchPerTick(s: Settings, events: seq<Event>)
    requires !HasShutdown(events)
    ensures |Only(RunEffects(s, events), FetchCall)| == |events|
  {
    if events != [] {
      assert !events[0].Shutdown?;
      assert !HasShutdown(events[1..]) by {
        forall k | 0 <= k < |events[1..]| ensures !events[1..][k].Shutdown? {
          assert events[1..][k] == events[k + 1];
        }
      }
      var t := events[0].outcome;
      OneFetchPerTick(s, events[1..]);
      OnlyConcat(TickEffects(s, t), RunEffects(s, events[1..]), FetchCall);
      TickFetchesOnce(s, t);
    }
  }

  /** Every tick calls the holder-count provider exactly once. */
  lemma TickFetchesOnce(s: Settings, t: TickOutcome)
    ensures Only(TickEffects(s, t), FetchCall) == [Fetch]
  {
    match t.fetch
    case Err => FailedFetchTick(s, t);
    case Ok(_) =>
      if s.nickname { NicknameTick(s, t); } else { ActivityTick(s, t); }
  }
}
