# Holder-count watcher

A Dafny model of the holder-count watcher of a Discord ticker bot (`Holders` in
`holders.go`). A watcher follows one token contract, given as a network and an address.
It shows the token's holder count in Discord in one of two ways:

- nickname mode: the bot's nickname in every guild it belongs to;
- activity mode: the bot's status.

It stamps a Prometheus gauge each time an update succeeds. The model covers:

- the bot's short label (`Holders.label`);
- the shutdown signal (`Holders.Shutdown`);
- the startup of `watchHolders`: the session, the mode fallback, the interval
  override, the self-rename and the ticker;
- the polling loop with its per-guild fan-out.

Every call the watcher makes to the outside world is an `Effect` appended to the
watcher's `trace`. The outcome of each call is an input:

- `Startup` holds the session, the guild list and the process-wide flags;
- each `Event` is one choice of the loop's `select`, either a timer tick carrying the
  outcomes of that tick's calls or the shutdown token.

Files:

- `wrappers.dfy`: `Option` and `Result`.
- `holder_text.dfy` (module `HolderText`): ASCII lowercasing, the ticker name, the
  label, and the decimal rendering of a count with its inverse.
- `holder_plan.dfy` (module `HolderPlan`): the effects as plain values. It holds the
  spec functions `TickEffects` (one tick) and `RunEffects` (the loop over a finite
  event sequence), and the lemmas about them.
- `holder_watcher.dfy` (module `HolderWatcher`): the class `Watcher`. Its fields are
  the ones `watchHolders` updates in place: `nickname`, `frequency` and `close`. The
  class also holds the guild list, a lifecycle `phase` and the `trace`. Each method is
  proved against the spec functions.

Behaviour of the code worth noting:

- The sleep of one polling interval comes only after a guild whose nickname update
  succeeded. A failed guild is skipped with `continue`, so there is no timestamp and no
  sleep for it (holders.go:114-122).
- A failed holder fetch records no metric at all (holders.go:103-107).
- Go's `select` picks at random among ready cases, so a pending shutdown token has no
  priority over a pending tick. Here the order of the events stands for the choices the
  `select` made.
- `time.NewTicker` panics on a non-positive interval (holders.go:91). The interval is
  the frequency in seconds times 10^9 in 64-bit arithmetic, which wraps around. That
  end is the terminal phase `Panicked`.

## Model

| member | source | states |
|---|---|---|
| HolderText.Label | holders.go:28-34 | the label: `network-address`, lowercased and cut to 32 bytes; its properties are stated by `LabelShape` |
| HolderText.Ticker | holders.go:29 | the `%s-%s` join of network and address; its ensures give the length and place the network, the dash and the address |
| HolderText.LabelShape | holders.go:28-34 | the label is at most 32 bytes, has no uppercase letter, and is a prefix of the lowercased `network-address`; it is all of it exactly when that fits in 32 bytes, its first 32 bytes otherwise |
| HolderText.LabelCollides | holders.go:28-34 | two witnesses that distinct watchers can share a label: a pair differing only in case, and a pair differing only after byte 32 |
| HolderText.Lower | holders.go:29 | lowercasing keeps the length and maps each byte through ASCII lowercasing |
| HolderText.Decimal | holders.go:108 | the `%d` rendering of a count; its properties are stated by `DecimalShape`, `DecimalRoundTrip` and `DecimalInjective` |
| HolderText.DigitsShape | holders.go:108 | the digits of a count are a non-empty run of decimal digits with no leading zero |
| HolderText.DecimalShape | holders.go:108 | `%d` is non-empty, starts with `-` exactly for a negative count, and is digits otherwise |
| HolderText.DigitsValueOfDigits | holders.go:108 | reading the digits of `n` back gives `n` |
| HolderText.DecimalRoundTrip | holders.go:108 | parsing the `%d` rendering of any count gives back that count |
| HolderText.DecimalInjective | holders.go:108 | distinct counts are displayed as distinct texts |
| HolderPlan.TickerPanics | holders.go:91 | `NewTicker` panics on a non-positive `Duration`; characterised by `TickerPanicsIff` |
| HolderPlan.DurationOf | holders.go:91 | the ticker's `Duration` equals seconds times 10^9 wherever no 64-bit wrap-around occurs |
| HolderPlan.TickerPanicsIff | holders.go:91 | outside wrap-around, `NewTicker` refuses the interval exactly when it is not positive |
| HolderPlan.GuildEffects | holders.go:112-123 | one guild's calls: the nickname call, then a timestamp with the guild's name and a sleep of the interval only on success; stated by `GuildStep` and `GuildKind` |
| HolderPlan.FanOut | holders.go:110-123 | the guild loop over guilds `lo..hi`; its content is stated by `FanOutSplit`, `FanOutStart`, `FanOutNicknames`, `FanOutTimestamps`, `FanOutSleeps` and `FanOutOthers` |
| HolderPlan.TickEffects | holders.go:101-133 | one tick's calls; its ensures say every tick starts with the holder fetch, and `FailedFetchTick`, `NicknameTick` and `ActivityTick` give its content per case |
| HolderPlan.RunEffects | holders.go:95-135 | the loop over a finite event sequence; stated by `NothingAfterShutdown`, `TickAppends` and `OneFetchPerTick` |
| HolderPlan.Stamps | holders.go:115-121 | the timestamps of a fan-out, one per successful guild with that guild's name, in order; there are as many as successful guilds |
| HolderPlan.OnlyConcat | holders.go:95-135 | selecting the calls of one kind distributes over concatenating traces |
| HolderPlan.FanOutSplit | holders.go:112-123 | the fan-out over guilds `lo..hi` is the fan-out up to any `mid` followed by the rest |
| HolderPlan.FanOutStart | holders.go:112-114 | a non-empty fan-out begins with the nickname call of its first guild |
| HolderPlan.GuildStep | holders.go:112-123 | guild `i`'s nickname call comes right after the effects of the guilds before it, and a timestamp with that guild's name followed by a sleep of the interval comes right after it iff the call succeeded |
| HolderPlan.FanOutNicknames | holders.go:112-114 | a fan-out makes exactly one nickname call per guild, in list order, all with the same text |
| HolderPlan.FanOutTimestamps | holders.go:115-121 | the timestamps of a fan-out are exactly `Stamps`: one per guild whose call succeeded, labelled with that guild's name, in list order |
| HolderPlan.FanOutSleeps | holders.go:115-122 | a fan-out sleeps one polling interval per guild whose call succeeded, and only that |
| HolderPlan.FanOutOthers | holders.go:112-123 | a fan-out makes no fetch, status, zero-metric, guild-list or rename call |
| HolderPlan.FailedFetchTick | holders.go:103-107 | a tick whose holder fetch failed makes the fetch and no other call |
| HolderPlan.NicknameTick | holders.go:108-123 | a successful nickname-mode tick: one fetch, one nickname call per guild in order with the `%d` text, exactly the timestamps `Stamps` (one per successful guild with its name, in order), one sleep of the polling interval per successful guild, no status update |
| HolderPlan.ActivityTick | holders.go:108-133 | a successful activity-mode tick: one fetch, exactly one status update with the `%d` text, one `None` timestamp iff the update succeeded, no nickname call and no sleep |
| HolderPlan.ThreeGuildTick | holders.go:110-123 | three guilds with the second refusing, count 42: the exact effect sequence, with no timestamp and no sleep for the second |
| HolderPlan.TickFetchesOnce | holders.go:101-103 | every tick calls the holder provider exactly once |
| HolderPlan.NothingAfterShutdown | holders.go:98-100 | once the shutdown token is taken, later events add no effect |
| HolderPlan.TickAppends | holders.go:95-135 | before any shutdown, one more tick appends exactly that tick's effects |
| HolderPlan.OneFetchPerTick | holders.go:95-107 | without a shutdown, the loop fetches the count once per tick, failed fetches included |
| HolderWatcher.OpenedEffects | holders.go:59-88 | the calls of a startup whose session opened; stated by `OpenedCalls` and `OpenedKind` |
| HolderWatcher.OpenedKind | holders.go:59-88 | the startup calls of any one kind: the status only in configured nickname mode, one guild-list request, the rename only when managed |
| HolderWatcher.OpenedCalls | holders.go:59-88 | startup after an open session never fetches the count, sets a nickname, stamps a timestamp or sleeps; it asks for the guilds once, and shows the configured text as the status exactly when nickname mode was configured |
| HolderWatcher.Watcher.constructor | holders.go:15-25 | a new watcher holds its configuration, no `close` channel, no guilds and an empty trace |
| HolderWatcher.Watcher.Shutdown | holders.go:37-39 | the token is sent at once exactly when `close` is made and empty, which fills it; otherwise nothing changes; the watcher stays valid |
| HolderWatcher.Watcher.Start | holders.go:41-57 | if creating or opening the session fails: exactly one zero sample labelled `None`, phase `Failed`, nothing else changed; otherwise the startup state of `StartedFrom`, with `close` made empty unless the ticker panicked |
| HolderWatcher.Watcher.Resolve | holders.go:59-93 | after an open session: nickname mode survives only if configured and the guild list came back non-empty; the override replaces a non-zero interval; the trace gains the startup calls; the phase is `Running` with an empty `close`, or `Panicked` |
| HolderWatcher.Watcher.ShowDescription | holders.go:59-66 | in nickname mode the configured text is shown as the status once, whatever the answer |
| HolderWatcher.Watcher.ResolveGuilds | holders.go:68-77 | one request for up to 100 guilds; a failed request gives no guilds; nickname mode is dropped when there are no guilds and never switched on |
| HolderWatcher.Watcher.Manage | holders.go:85-88 | a managed process renames the bot to its label, once |
| HolderWatcher.Watcher.StartTicker | holders.go:91-93 | a non-positive ticker `Duration` panics before `close` is made; otherwise `close` is made empty and the loop is entered |
| HolderWatcher.Watcher.HandleTick | holders.go:101-133 | one tick appends exactly `TickEffects` of the watcher's settings and the tick's outcomes |
| HolderWatcher.Watcher.UpdateNicknames | holders.go:110-123 | the guild loop with its `continue` appends exactly the fan-out over all guilds |
| HolderWatcher.Watcher.UpdateStatus | holders.go:124-133 | one status update, then a `None` timestamp only on success |
| HolderWatcher.Watcher.Step | holders.go:97-101 | the shutdown token, sent then unless one is already pending, is taken: the watcher stops with `close` empty; a tick appends its effects, keeps it running and leaves a pending token in place |
| HolderWatcher.Watcher.Loop | holders.go:95-135 | the loop appends exactly `RunEffects` of the events, ends `Stopped` with `close` empty iff a shutdown token came, leaves `close` as it was otherwise, and keeps the watcher valid |
| HolderWatcher.Watcher.WatchHolders | holders.go:41-136 | the whole goroutine: a failed session gives one zero sample and changes no setting; otherwise the mode, guilds and interval are the ones startup resolved from the configuration and `Startup`, the trace is the startup calls then either nothing (panic) or the loop's effects over the events |

## Left out

- The gateway session and its calls (`discordgo.New`, `Open`, `UpdateWatchStatus`,
  `UserGuilds`, `GuildMemberNickname`) are not called: only their success or failure is
  an input. The same goes for the holder provider `utils.GetHolders`, whose answer is a
  `Result<int>`.
- Prometheus internals: a sample is a `SetMetricZero` or `MetricNow` effect with its
  label set. No clock value is recorded.
- `setName` is not part of this model. The self-rename is an opaque `Rename` effect
  carrying the label.
- Logging, the bot token, the API token, the client ID and the JSON tags are not
  modelled.
- Real time: ticks are events, and `time.Sleep` is a `Sleep(seconds)` effect. The sleep's
  own 64-bit `Duration` conversion is not modelled.
- Goroutines and channels. The loop is given a finite event
  sequence in place of the unbounded `for`/`select`. The random choice of the `select`
  is the order of that sequence.
- Strings: each `char` stands for one byte, and `strings.ToLower` is the ASCII mapping.
  Unicode case mapping, and cutting a multi-byte character at byte 32, are not
  modelled.
- The process-wide `-frequency` and `-managed` flags are inputs of `Startup`.
- HolderText.Lower: states the per-byte ASCII mapping only, not Unicode lowercasing.
- HolderWatcher.Watcher.Shutdown: a send that cannot complete at once returns `false`
  and changes nothing. The caller's wait is not modelled: for ever on a channel not yet
  made, until the loop takes the pending token on a full one.
