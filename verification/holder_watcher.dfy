/** The holder-count watcher (`Holders`) as an object: startup resolution,
    the polling loop with its nickname fan-out, and the shutdown signal.

    The gateway session, the guild list request, the holder-count provider
    and the timer are not called: their answers are inputs (`Startup`,
    `Event`), and every call the watcher makes is appended to `trace`. */
module HolderWatcher {
  import opened Wrappers
  import opened HolderText
  import opened HolderPlan

  /** The lifecycle of one watcher. `Panicked` is the end of the process:
      `time.NewTicker` was handed a non-positive interval. */
  datatype Phase = Uninitialized | Starting | Running | Stopped | Failed | Panicked

  /** The `close` channel: not yet made (`nil`), or made with room for one
      token that is either pending (`full`) or not. */
  datatype Channel = Nil | Chan(full: bool)

  /** The answers the outside world gives during startup: whether the session
      could be created and opened, the guild list (or an error), and the
      process-wide `-frequency` override and `-managed` switch. */
  datatype Startup = Startup(
    sessionCreated: bool,
    sessionOpened: bool,
    guildFetch: Result<seq<Guild>>,
    frequencyOverride: Int64,
    managed: bool)

  /** The calls of a startup whose session opened: the one-time status in
      nickname mode, the guild list request, and the self-rename when managed. */
  function OpenedEffects(configuredNickname: bool, activity: string, managed: bool, name: string): seq<Effect>
  {
    (if configuredNickname then [SetActivity(activity)] else [])
      + [ListGuilds(GuildPageLimit)]
      + (if managed then [Rename(name)] else [])
  }

  /** Startup never fetches the holder count, sets a nickname or stamps a
      metric; it asks for the guilds once, and shows the configured text as
      the status exactly when nickname mode was configured. */
  lemma OpenedCalls(configuredNickname: bool, activity: string, managed: bool, name: string)
    ensures var r := OpenedEffects(configuredNickname, activity, managed, name);
      && Only(r, FetchCall) == [] && Only(r, NicknameCall) == [] && Only(r, MetricNowCall) == []
      && Only(r, SleepCall) == []
      && Only(r, ListGuildsCall) == [ListGuilds(GuildPageLimit)]
      && Only(r, ActivityCall) == (if configuredNickname then [SetActivity(activity)] else [])
  {
    OpenedKind(configuredNickname, activity, managed, name, FetchCall);
    OpenedKind(configuredNickname, activity, managed, name, NicknameCall);
    OpenedKind(configuredNickname, activity, managed, name, MetricNowCall);
    OpenedKind(configuredNickname, activity, managed, name, SleepCall);
    OpenedKind(configuredNickname, activity, managed, name, ListGuildsCall);
    OpenedKind(configuredNickname, activity, managed, name, ActivityCall);
  }

  /** The startup calls of kind `k`. */
  lemma OpenedKind(configuredNickname: bool, activity: string, managed: bool, name: string, k: Kind)
    ensures Only(OpenedEffects(configuredNickname, activity, managed, name), k)
         == (if k == ActivityCall && configuredNickname then [SetActivity(activity)] else [])
          + (if k == ListGuildsCall then [ListGuilds(GuildPageLimit)] else [])
          + (if k == RenameCall && managed then [Rename(name)] else [])
  {
    var status := if configuredNickname then [SetActivity(activity)] else [];
    var rename := if managed then [Rename(name)] else [];
    OpenedKinds(status, rename, k);
    OnlySingle(ListGuilds(GuildPageLimit), k);
    OnlySingle(SetActivity(activity), k);
    OnlySingle(Rename(name), k);
  }

  lemma OpenedKinds(status: seq<Effect>, rename: seq<Effect>, k: Kind)
    ensures Only(status + [ListGuilds(GuildPageLimit)] + rename, k)
         == Only(status, k) + Only([ListGuilds(GuildPageLimit)], k) + Only(rename, k)
  {
    OnlyConcat(status, [ListGuilds(GuildPageLimit)], k);
    OnlyConcat(status + [ListGuilds(GuildPageLimit)], rename, k);
  }

  class Watcher {
    const network: string
    const address: string
    const activity: string
    var nickname: bool
    var frequency: Int64
    var close: Channel
    /** The guilds fetched at startup; only used in nickname mode. */
    var guilds: seq<Guild>
    var phase: Phase
    /** Every call made so far, oldest first. */
    var trace: seq<Effect>

    ghost predicate Valid()
      reads this
    {
      && (phase.Running? ==> close.Chan? && !TickerPanics(frequency))
      && (phase.Running? || phase.Stopped? ==> (nickname ==> |guilds| > 0))
      && (!phase.Running? && !phase.Stopped? ==> close == Nil)
    }

    constructor (network: string, address: string, activity: string, nickname: bool, frequency: Int64)
      ensures Valid()
      ensures this.network == network && this.address == address && this.activity == activity
      ensures this.nickname == nickname && this.frequency == frequency
      ensures close == Nil && guilds == [] && phase == Uninitialized && trace == []
    {
      this.network := network;
      this.address := address;
      this.activity := activity;
      this.nickname := nickname;
      this.frequency := frequency;
      close := Nil;
      guilds := [];
      phase := Uninitialized;
      trace := [];
    }

    /** What one tick reads of the watcher. */
    function TickSettings(): Settings
      reads this`nickname, this`guilds, this`frequency
    {
      Settings(Ticker(network, address), nickname, guilds, frequency)
    }

    /** `Shutdown`: put a token in `close`. The send completes at once only
        when `close` is made and its slot is empty. On a channel that is not
        made yet it blocks for ever; on a full one it blocks until the loop
        takes the pending token. A send that cannot complete now returns
        `false` and changes nothing. */
    method Shutdown() returns (sent: bool)
      requires Valid()
      modifies this`close
      ensures Valid()
      ensures sent <==> old(close) == Chan(false)
      ensures close == if sent then Chan(true) else old(close)
    {
      if close == Chan(false) {
        close := Chan(true);
        sent := true;
      } else {
        sent := false;
      }
    }

    /** The startup part of `watchHolders`, up to making `close`. */
    method Start(st: Startup)
      requires Valid() && phase == Uninitialized
      modifies this`nickname, this`frequency, this`close, this`guilds, this`phase, this`trace
      ensures Valid()
      ensures !(st.sessionCreated && st.sessionOpened) ==>
        && phase == Failed
        && trace == old(trace) + [SetMetricZero(MetricLabels(Ticker(network, address), NoGuild))]
        && nickname == old(nickname) && frequency == old(frequency) && guilds == old(guilds)
      ensures st.sessionCreated && st.sessionOpened ==> StartedFrom(old(nickname), old(frequency), old(trace), st)
    {
      phase := Starting;
      if !st.sessionCreated || !st.sessionOpened {
        trace := trace + [SetMetricZero(MetricLabels(Ticker(network, address), NoGuild))];
        phase := Failed;
      } else {
        Resolve(st);
      }
    }

    /** The state after a startup whose session opened, from the configured
        mode and interval and the calls made before. */
    ghost predicate StartedFrom(configuredNickname: bool, configuredFrequency: Int64, before: seq<Effect>, st: Startup)
      reads this
    {
      && nickname == (configuredNickname && st.guildFetch.Ok? && |st.guildFetch.value| > 0)
      && guilds == (if st.guildFetch.Ok? then st.guildFetch.value else [])
      && frequency == (if st.frequencyOverride != 0 then st.frequencyOverride else configuredFrequency)
      && trace == before + OpenedEffects(configuredNickname, activity, st.managed, Label(network, address))
      && phase == (if TickerPanics(frequency) then Panicked else Running)
      && close == (if TickerPanics(frequency) then Nil else Chan(false))
    }

    /** Startup once the session is open: the one-time status, the guild list
        and the fallback to status mode, the interval override, the
        self-rename, and the ticker. */
    method Resolve(st: Startup)
      requires phase == Starting && close == Nil
      modifies this`nickname, this`frequency, this`close, this`guilds, this`phase, this`trace
      ensures Valid()
      ensures StartedFrom(old(nickname), old(frequency), old(trace), st)
    {
      ghost var status := if nickname then [SetActivity(activity)] else [];
      ShowDescription();
      ResolveGuilds(st.guildFetch);
      if st.frequencyOverride != 0 {
        frequency := st.frequencyOverride;
      }
      Manage(st.managed);
      assert trace == old(trace) + status + [ListGuilds(GuildPageLimit)]
        + (if st.managed then [Rename(Label(network, address))] else []);
      StartTicker();
    }

    /** The management operations of a `-managed` process: rename the bot to
        its label. */
    method Manage(managed: bool)
      modifies this`trace
      ensures trace == old(trace) + if managed then [Rename(Label(network, address))] else []
    {
      if managed {
        trace := trace + [Rename(Label(network, address))];
      }
    }

    /** `time.NewTicker` on the polling interval, then `make(chan int, 1)`:
        a non-positive `Duration` panics before `close` is made. */
    method StartTicker()
      requires phase == Starting && close == Nil
      modifies this`close, this`phase
      ensures phase == if TickerPanics(frequency) then Panicked else Running
      ensures close == if TickerPanics(frequency) then Nil else Chan(false)
    {
      if TickerPanics(frequency) {
        phase := Panicked;
      } else {
        close := Chan(false);
        phase := Running;
      }
    }

    /** In nickname mode the configured activity text is shown once as the
        status; the answer is ignored. */
    method ShowDescription()
      modifies this`trace
      ensures trace == old(trace) + if nickname then [SetActivity(activity)] else []
    {
      if nickname {
        trace := trace + [SetActivity(activity)];
      }
    }

    /** Ask for the first page of guilds; without any guild, nickname mode
        falls back to status mode. */
    method ResolveGuilds(guildFetch: Result<seq<Guild>>)
      modifies this`nickname, this`guilds, this`trace
      ensures guilds == if guildFetch.Ok? then guildFetch.value else []
      ensures nickname == (old(nickname) && |guilds| > 0)
      ensures trace == old(trace) + [ListGuilds(GuildPageLimit)]
    {
      trace := trace + [ListGuilds(GuildPageLimit)];
      var fetched := if guildFetch.Ok? then guildFetch.value else [];
      if guildFetch.Err? {
        nickname := false;
      }
      if |fetched| == 0 {
        nickname := false;
      }
      guilds := fetched;
    }

    /** One timer tick: fetch the count, then update every guild's nickname
        in turn or the status once. */
    method HandleTick(t: TickOutcome)
      modifies this`trace
      ensures trace == old(trace) + TickEffects(TickSettings(), t)
    {
      trace := trace + [Fetch];
      match t.fetch
      case Err =>
      case Ok(count) =>
        var text := Decimal(count);
        if nickname {
          UpdateNicknames(text, t.nicknameOk);
        } else {
          UpdateStatus(text, t.activityOk);
        }
    }

    /** The fan-out: set the nickname in each guild in list order; after a
        success, stamp that guild's metric and sleep one polling interval. */
    method UpdateNicknames(text: string, ok: nat -> bool)
      modifies this`trace
      ensures trace == old(trace) + FanOut(TickSettings(), text, ok, 0, |guilds|)
    {
      ghost var s := TickSettings();
      var i := 0;
      while i < |guilds|
        invariant 0 <= i <= |guilds|
        invariant s == TickSettings()
        invariant trace == old(trace) + FanOut(s, text, ok, 0, i)
      {
        var g := guilds[i];
        trace := trace + [SetNickname(g.id, text)];
        if !ok(i) {
          i := i + 1;
          continue;
        }
        trace := trace + [MetricNow(MetricLabels(Ticker(network, address), g.name)), Sleep(frequency)];
        i := i + 1;
      }
    }

    /** Status mode: show the count as the status; on success stamp the
        metric series that is not tied to a guild. */
    method UpdateStatus(text: string, ok: bool)
      modifies this`trace
      ensures trace == old(trace) + [SetActivity(text)]
        + (if ok then [MetricNow(MetricLabels(Ticker(network, address), NoGuild))] else [])
    {
      trace := trace + [SetActivity(text)];
      if ok {
        trace := trace + [MetricNow(MetricLabels(Ticker(network, address), NoGuild))];
      }
    }

    /** The `for`/`select` loop: each event is one choice of the select; a
        tick runs `HandleTick`, the shutdown token ends the watcher. */
    method Loop(events: seq<Event>)
      requires Valid() && phase == Running
      modifies this`trace, this`close, this`phase
      ensures Valid()
      ensures trace == old(trace) + RunEffects(TickSettings(), events)
      ensures phase == if HasShutdown(events) then Stopped else Running
      ensures close == if HasShutdown(events) then Chan(false) else old(close)
    {
      ghost var s := TickSettings();
      var i := 0;
      while i < |events|
        invariant 0 <= i <= |events|
        invariant s == TickSettings()
        invariant Valid() && close == old(close) && phase == Running
        invariant !HasShutdown(events[..i])
        invariant trace == old(trace) + RunEffects(s, events[..i])
      {
        var stopped := Step(events[i]);
        if stopped {
          ShutdownAt(s, events, i);
          return;
        }
        TickAt(s, events, i);
        i := i + 1;
      }
      assert events[..i] == events;
    }

    /** One choice of the select: the shutdown token ends the watcher, a
        tick runs `HandleTick`. A tick may be chosen while a token is
        pending. */
    method Step(e: Event) returns (stopped: bool)
      requires Valid() && phase == Running
      modifies this`trace, this`close, this`phase
      ensures Valid()
      ensures stopped == e.Shutdown?
      ensures close == if stopped then Chan(false) else old(close)
      ensures phase == if stopped then Stopped else Running
      ensures trace == old(trace) + if stopped then [] else TickEffects(TickSettings(), e.outcome)
    {
      match e
      case Shutdown =>
        // The token is in the slot, sent now unless one was pending, and the
        // select takes it.
        if !close.full {
          var sent := Shutdown();
        }
        close := Chan(false);
        phase := Stopped;
        stopped := true;
      case Tick(t) =>
        HandleTick(t);
        stopped := false;
    }

    /** `watchHolders`: startup, then the loop when startup reached it. */
    method WatchHolders(st: Startup, events: seq<Event>)
      requires Valid() && phase == Uninitialized
      modifies this`nickname, this`frequency, this`close, this`guilds, this`phase, this`trace
      ensures Valid()
      ensures !(st.sessionCreated && st.sessionOpened) ==>
        && phase == Failed && close == Nil
        && trace == old(trace) + [SetMetricZero(MetricLabels(Ticker(network, address), NoGuild))]
        && nickname == old(nickname) && frequency == old(frequency) && guilds == old(guilds)
      ensures st.sessionCreated && st.sessionOpened ==>
        && nickname == (old(nickname) && st.guildFetch.Ok? && |st.guildFetch.value| > 0)
        && guilds == (if st.guildFetch.Ok? then st.guildFetch.value else [])
        && frequency == (if st.frequencyOverride != 0 then st.frequencyOverride else old(frequency))
      ensures st.sessionCreated && st.sessionOpened ==>
        var started := old(trace) + OpenedEffects(old(nickname), activity, st.managed, Label(network, address));
        if TickerPanics(frequency) then phase == Panicked && close == Nil && trace == started
        else (trace == started + RunEffects(TickSettings(), events)
              && phase == (if HasShutdown(events) then Stopped else Running)
              && close == Chan(false))
    {
      Start(st);
      if phase == Running {
        Loop(events);
      }
    }
  }
}
