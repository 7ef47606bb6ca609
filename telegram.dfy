/** Alert throttle and dual-channel dispatch (src/telegram.ts): two
    optional Telegram channels, high and low quality, each with its own
    configuration and its own last-sent time per detection type.
    Clock readings (`Date.now()`) and the outcome of saving the photo and
    calling `sendPhoto` are parameters. */
module Telegram {
  import opened Imaging
  import Config
  import Timestamp

  datatype Option<T> = None | Some(value: T)

  /** ImageQuality: 'high' | 'low'. */
  datatype Quality = High | Low

  /** TelegramBotConfig. */
  datatype BotConfig = BotConfig(botToken: string, chatId: string, enabled: bool, cooldownSeconds: int)

  /** DualTelegramConfig. */
  datatype DualConfig = DualConfig(highQuality: BotConfig, lowQuality: BotConfig)

  /** CooldownState: the time, in milliseconds, of the last alert sent per
      detection type. */
  datatype Stamps = Stamps(person: int, fire: int) {
    function Get(k: Kind): int {
      match k
      case Person => person
      case Fire => fire
    }

    /** `lastAlert[type] = now`. */
    function Set(k: Kind, now: int): (r: Stamps)
      ensures r.Get(k) == now
      ensures forall k' :: k' != k ==> r.Get(k') == Get(k')
    {
      match k
      case Person => this.(person := now)
      case Fire => this.(fire := now)
    }
  }

  /** The module-level state. A bot and its config are assigned together
      (the config only after the bot was built), so one optional config
      stands for both `botHQ`/`configHQ`, and likewise for low quality. */
  datatype Throttle = Throttle(hq: Option<BotConfig>, lq: Option<BotConfig>, lastHQ: Stamps, lastLQ: Stamps) {
    function Channel(q: Quality): Option<BotConfig> {
      if q == High then hq else lq
    }

    function Last(q: Quality): Stamps {
      if q == High then lastHQ else lastLQ
    }
  }

  /** No bot configured and all four last-sent times 0. */
  function Initial(): Throttle {
    Throttle(None, None, Stamps(0, 0), Stamps(0, 0))
  }

  /** initTelegramBots takes a channel's config when it is enabled, its
      token and chat id are non-empty and constructing the bot did not
      throw (`built`). */
  predicate Accepts(c: BotConfig, built: bool) {
    c.enabled && c.botToken != "" && c.chatId != "" && built
  }

  /** initTelegramBots: a channel that is not accepted keeps whatever bot
      and config it had. */
  function Init(t: Throttle, dual: DualConfig, hqBuilt: bool, lqBuilt: bool): (r: Throttle)
    ensures Accepts(dual.highQuality, hqBuilt) ==> r.hq == Some(dual.highQuality)
    ensures Accepts(dual.lowQuality, lqBuilt) ==> r.lq == Some(dual.lowQuality)
    ensures !Accepts(dual.highQuality, hqBuilt) ==> r.hq == t.hq
    ensures !Accepts(dual.lowQuality, lqBuilt) ==> r.lq == t.lq
    ensures r.lastHQ == t.lastHQ && r.lastLQ == t.lastLQ
  {
    t.(hq := if Accepts(dual.highQuality, hqBuilt) then Some(dual.highQuality) else t.hq,
       lq := if Accepts(dual.lowQuality, lqBuilt) then Some(dual.lowQuality) else t.lq)
  }

  /** The guard of each branch: `bot && config && config.enabled`. */
  predicate Ready(t: Throttle, q: Quality) {
    t.Channel(q).Some? && t.Channel(q).value.enabled
  }

  /** canSendAlert(type, quality) at time `now`. */
  predicate CanSend(t: Throttle, k: Kind, q: Quality, now: int) {
    t.Channel(q).Some? && now - t.Last(q).Get(k) >= t.Channel(q).value.cooldownSeconds * 1000
  }

  /** updateLastAlert(type, quality) at time `now`. */
  function Record(t: Throttle, k: Kind, q: Quality, now: int): (r: Throttle)
    ensures r.hq == t.hq && r.lq == t.lq
    ensures r.Last(q).Get(k) == now
    ensures forall k', q' :: (k', q') != (k, q) ==> r.Last(q').Get(k') == t.Last(q').Get(k')
  {
    if q == High then t.(lastHQ := t.lastHQ.Set(k, now)) else t.(lastLQ := t.lastLQ.Set(k, now))
  }

  /** What one branch of sendPersonAlert / sendFireAlert meets: the clock
      when canSendAlert runs, whether saving the photo and `sendPhoto`
      both succeeded, and the clock when updateLastAlert runs. */
  datatype Attempt = Attempt(checkAt: int, delivered: bool, doneAt: int)

  datatype Outcome = Skipped | CoolingDown | Sent | Failed

  /** One branch of sendPersonAlert / sendFireAlert for one channel. */
  function Branch(t: Throttle, k: Kind, q: Quality, a: Attempt): (r: (Throttle, Outcome))
    ensures r.1 == Skipped <==> !Ready(t, q)
    ensures r.1 == CoolingDown <==> Ready(t, q) && !CanSend(t, k, q, a.checkAt)
    ensures r.1 == Sent <==> Ready(t, q) && CanSend(t, k, q, a.checkAt) && a.delivered
    ensures r.0 == if r.1 == Sent then Record(t, k, q, a.doneAt) else t
  {
    if !Ready(t, q) then (t, Skipped)
    else if !CanSend(t, k, q, a.checkAt) then (t, CoolingDown)
    else if a.delivered then (Record(t, k, q, a.doneAt), Sent)
    else (t, Failed)
  }

  /** sendPersonAlert / sendFireAlert: the high-quality branch, then the
      low-quality branch on the state it leaves. Each channel's outcome
      and last-sent times are those of its own branch alone. */
  function Dispatch(t: Throttle, k: Kind, hqA: Attempt, lqA: Attempt): (r: (Throttle, Outcome, Outcome))
    ensures r.1 == Branch(t, k, High, hqA).1 && r.2 == Branch(t, k, Low, lqA).1
    ensures r.0.lastHQ == Branch(t, k, High, hqA).0.lastHQ
    ensures r.0.lastLQ == Branch(t, k, Low, lqA).0.lastLQ
    ensures r.0.hq == t.hq && r.0.lq == t.lq
  {
    var (t1, o1) := Branch(t, k, High, hqA);
    var (t2, o2) := Branch(t1, k, Low, lqA);
    (t2, o1, o2)
  }

  /** Size of the image saved for a channel: high quality keeps the frame,
      low quality halves both sides (rounded down). */
  function SavedSize(f: Frame, q: Quality): (r: (nat, nat))
    ensures q == High ==> r == (f.rows, f.cols)
    ensures q == Low ==> 2 * r.0 <= f.rows <= 2 * r.0 + 1 && 2 * r.1 <= f.cols <= 2 * r.1 + 1
  {
    if q == High then (f.rows, f.cols) else (f.rows / 2, f.cols / 2)
  }

  /** The module's mutable state and the functions that change it. */
  class Dispatcher {
    var hq: Option<BotConfig>
    var lq: Option<BotConfig>
    var lastHQ: Stamps
    var lastLQ: Stamps

    function State(): Throttle
      reads this
    {
      Throttle(hq, lq, lastHQ, lastLQ)
    }

    constructor ()
      ensures State() == Initial()
    {
      hq, lq := None, None;
      lastHQ, lastLQ := Stamps(0, 0), Stamps(0, 0);
    }

    method InitTelegramBots(dual: DualConfig, hqBuilt: bool, lqBuilt: bool)
      modifies this
      ensures State() == Init(old(State()), dual, hqBuilt, lqBuilt)
    {
      if dual.highQuality.enabled {
        if dual.highQuality.botToken != "" && dual.highQuality.chatId != "" && hqBuilt {
          hq := Some(dual.highQuality);
        }
      }
      if dual.lowQuality.enabled {
        if dual.lowQuality.botToken != "" && dual.lowQuality.chatId != "" && lqBuilt {
          lq := Some(dual.lowQuality);
        }
      }
    }

    method UpdateLastAlert(k: Kind, q: Quality, now: int)
      modifies this
      ensures State() == Record(old(State()), k, q, now)
    {
      if q == High {
        lastHQ := lastHQ.Set(k, now);
      } else {
        lastLQ := lastLQ.Set(k, now);
      }
    }

    /** One channel's branch of sendPersonAlert / sendFireAlert. */
    method SendBranch(k: Kind, q: Quality, a: Attempt) returns (o: Outcome)
      modifies this
      ensures (State(), o) == Branch(old(State()), k, q, a)
    {
      var c := if q == High then hq else lq;
      if c.Some? && c.value.enabled {
        if CanSend(State(), k, q, a.checkAt) {
          if a.delivered {
            UpdateLastAlert(k, q, a.doneAt);
            o := Sent;
          } else {
            o := Failed;
          }
        } else {
          o := CoolingDown;
        }
      } else {
        o := Skipped;
      }
    }

    /** sendPersonAlert (k = Person) and sendFireAlert (k = Fire). */
    method SendAlert(k: Kind, hqA: Attempt, lqA: Attempt) returns (hqOut: Outcome, lqOut: Outcome)
      modifies this
      ensures (State(), hqOut, lqOut) == Dispatch(old(State()), k, hqA, lqA)
    {
      hqOut := SendBranch(k, High, hqA);
      lqOut := SendBranch(k, Low, lqA);
    }

    /** sendMessage: every ready channel is tried, with no cooldown check
        and no last-sent update. */
    method SendMessage(hqDelivered: bool, lqDelivered: bool) returns (hqOut: Outcome, lqOut: Outcome)
      ensures hqOut != CoolingDown && lqOut != CoolingDown
      ensures hqOut == Skipped <==> !Ready(State(), High)
      ensures hqOut == Sent <==> Ready(State(), High) && hqDelivered
      ensures lqOut == Skipped <==> !Ready(State(), Low)
      ensures lqOut == Sent <==> Ready(State(), Low) && lqDelivered
    {
      hqOut := Skipped;
      if hq.Some? && hq.value.enabled {
        hqOut := if hqDelivered then Sent else Failed;
      }
      lqOut := Skipped;
      if lq.Some? && lq.value.enabled {
        lqOut := if lqDelivered then Sent else Failed;
      }
    }
  }

  /** All four last-sent times start at 0 and, with no config, nothing is
      ever allowed. */
  lemma InitialAllowsNothing(k: Kind, q: Quality, now: int)
    ensures Initial().Last(q).Get(k) == 0
    ensures !Ready(Initial(), q) && !CanSend(Initial(), k, q, now)
  {
  }

  /** After initTelegramBots a channel is ready exactly when its config was
      accepted or it was ready before; from the initial state, exactly
      when it was accepted. The last-sent times are untouched. */
  lemma InitGatesChannels(t: Throttle, dual: DualConfig, hqBuilt: bool, lqBuilt: bool)
    ensures Ready(Init(t, dual, hqBuilt, lqBuilt), High) <==> Accepts(dual.highQuality, hqBuilt) || Ready(t, High)
    ensures Ready(Init(t, dual, hqBuilt, lqBuilt), Low) <==> Accepts(dual.lowQuality, lqBuilt) || Ready(t, Low)
    ensures Ready(Init(Initial(), dual, hqBuilt, lqBuilt), High) <==> Accepts(dual.highQuality, hqBuilt)
    ensures Ready(Init(Initial(), dual, hqBuilt, lqBuilt), Low) <==> Accepts(dual.lowQuality, lqBuilt)
    ensures Init(t, dual, hqBuilt, lqBuilt).lastHQ == t.lastHQ
    ensures Init(t, dual, hqBuilt, lqBuilt).lastLQ == t.lastLQ
  {
  }

  /** canSendAlert refuses a channel without a config, and once it allows
      a key it keeps allowing it as the clock advances, until that key's
      time is recorded again. */
  lemma CanSendLater(t: Throttle, k: Kind, q: Quality, now: int, later: int)
    ensures t.Channel(q).None? ==> !CanSend(t, k, q, now)
    ensures CanSend(t, k, q, now) && now <= later ==> CanSend(t, k, q, later)
    ensures t.Channel(q).Some? && t.Channel(q).value.cooldownSeconds == 0 ==>
      (CanSend(t, k, q, now) <==> now >= t.Last(q).Get(k))
  {
  }

  /** After a send completed at `doneAt`, the same type on the same channel
      is allowed again exactly when the cooldown has fully elapsed: the
      boundary itself is allowed. */
  lemma CooldownAfterSend(t: Throttle, k: Kind, q: Quality, a: Attempt, now: int)
    requires Branch(t, k, q, a).1 == Sent
    ensures t.Channel(q).Some?
    ensures CanSend(Branch(t, k, q, a).0, k, q, now) <==> now - a.doneAt >= t.Channel(q).value.cooldownSeconds * 1000
  {
  }

  /** With the configured 30-second cooldown, a success at T blocks T + 10 s
      and T + 29.999 s and allows T + 30 s. */
  lemma ThirtySecondCooldown(t: Throttle, k: Kind, q: Quality, a: Attempt)
    requires t.Channel(q).Some? && t.Channel(q).value.cooldownSeconds == Config.COOLDOWN_SECONDS
    requires Branch(t, k, q, a).1 == Sent
    ensures !CanSend(Branch(t, k, q, a).0, k, q, a.doneAt + 10000)
    ensures !CanSend(Branch(t, k, q, a).0, k, q, a.doneAt + 29999)
    ensures CanSend(Branch(t, k, q, a).0, k, q, a.doneAt + 30000)
  {
    CooldownAfterSend(t, k, q, a, a.doneAt + 10000);
    CooldownAfterSend(t, k, q, a, a.doneAt + 29999);
    CooldownAfterSend(t, k, q, a, a.doneAt + 30000);
  }

  /** Fire and person, high and low: a branch never changes whether any
      other (type, channel) key may send. */
  lemma KeysIndependent(t: Throttle, k: Kind, q: Quality, a: Attempt, k': Kind, q': Quality, now: int)
    requires (k', q') != (k, q)
    ensures Ready(Branch(t, k, q, a).0, q') == Ready(t, q')
    ensures CanSend(Branch(t, k, q, a).0, k', q', now) == CanSend(t, k', q', now)
  {
  }

  /** The timestamp is only recorded after a delivered photo: when neither
      channel delivered, the state is unchanged and the next detection is
      checked against the same last-sent times. */
  lemma FailureRetries(t: Throttle, k: Kind, hqA: Attempt, lqA: Attempt)
    requires !hqA.delivered && !lqA.delivered
    ensures Dispatch(t, k, hqA, lqA).0 == t
  {
  }

  /** Successive branches of one (type, channel) key over a run of
      detections: the final state and each detection's outcome. */
  function Replay(t: Throttle, k: Kind, q: Quality, attempts: seq<Attempt>): (r: (Throttle, seq<Outcome>))
    ensures |r.1| == |attempts|
    ensures r.0.hq == t.hq && r.0.lq == t.lq
  {
    if attempts == [] then (t, [])
    else
      var (t1, os) := Replay(t, k, q, attempts[..|attempts| - 1]);
      var (t2, o) := Branch(t1, k, q, attempts[|attempts| - 1]);
      (t2, os + [o])
  }

  /** The clock never goes back: each check comes before its own update,
      and every update before any later check. */
  ghost predicate Ordered(attempts: seq<Attempt>) {
    (forall i :: 0 <= i < |attempts| ==> attempts[i].checkAt <= attempts[i].doneAt)
    && (forall i, j :: 0 <= i < j < |attempts| ==> attempts[i].doneAt <= attempts[j].checkAt)
  }

  lemma {:induction false} ReplayStep(t: Throttle, k: Kind, q: Quality, attempts: seq<Attempt>, j: nat)
    requires j < |attempts|
    ensures Replay(t, k, q, attempts).1[j] == Branch(Replay(t, k, q, attempts[..j]).0, k, q, attempts[j]).1
  {
    var init := attempts[..|attempts| - 1];
    if j < |init| {
      ReplayStep(t, k, q, init, j);
      assert init[..j] == attempts[..j];
    } else {
      assert init == attempts[..j];
    }
  }

  lemma {:induction false} StampAfterSent(t: Throttle, k: Kind, q: Quality, attempts: seq<Attempt>, i: nat)
    requires Ordered(attempts) && i < |attempts|
    requires Replay(t, k, q, attempts).1[i] == Sent
    ensures Replay(t, k, q, attempts).0.Last(q).Get(k) >= attempts[i].doneAt
  {
    var n := |attempts|;
    var init := attempts[..n - 1];
    var t1 := Replay(t, k, q, init).0;
    if i < n - 1 {
      assert Ordered(init) by {
        forall x | 0 <= x < |init| ensures init[x] == attempts[x] { }
      }
      StampAfterSent(t, k, q, init, i);
      assert attempts[i].doneAt <= attempts[n - 1].checkAt <= attempts[n - 1].doneAt;
    }
  }

  /** The throttle's guarantee over a replay of one (type, channel) key's
      branches with a monotone clock: two sends are at least the cooldown
      apart, measured from the first one's update to the second one's
      check. Branches of other keys in between change nothing this key
      sees (KeysIndependent). */
  lemma SentSpacing(t: Throttle, k: Kind, q: Quality, attempts: seq<Attempt>, i: nat, j: nat)
    requires Ordered(attempts) && i < j < |attempts|
    requires Replay(t, k, q, attempts).1[i] == Sent && Replay(t, k, q, attempts).1[j] == Sent
    ensures t.Channel(q).Some?
    ensures attempts[j].checkAt - attempts[i].doneAt >= t.Channel(q).value.cooldownSeconds * 1000
  {
    var pre := attempts[..j];
    ReplayStep(t, k, q, attempts, j);
    ReplayStep(t, k, q, attempts, i);
    ReplayStep(t, k, q, pre, i);
    assert pre[..i] == attempts[..i];
    assert Ordered(pre) by {
      forall x | 0 <= x < |pre| ensures pre[x] == attempts[x] { }
    }
    StampAfterSent(t, k, q, pre, i);
  }

  /** The configured 160 x 120 frame is sent as 80 x 60 on the
      low-quality channel and unchanged on the high-quality one. */
  lemma ConfiguredFrameSizes(pixels: seq<int>)
    ensures SavedSize(Frame(Config.FRAME_HEIGHT, Config.FRAME_WIDTH, pixels), Low) == (60, 80)
    ensures SavedSize(Frame(Config.FRAME_HEIGHT, Config.FRAME_WIDTH, pixels), High) == (120, 160)
  {
  }

  function KindName(k: Kind): string {
    match k
    case Person => "person"
    case Fire => "fire"
  }

  function QualityName(q: Quality): string {
    if q == High then "high" else "low"
  }

  /** The temporary photo file of saveFrameToTemp: type, quality and the
      stamp that keeps its 'T'. */
  function TempFileName(k: Kind, q: Quality, iso: string): string {
    KindName(k) + "_" + QualityName(q) + "_" + Timestamp.TempTimestamp(iso) + ".jpg"
  }

  /** The four (type, quality) keys never share a temporary file name, so
      the high- and low-quality photos of one alert are distinct files. */
  lemma TempFileNamesDistinct(k1: Kind, q1: Quality, iso1: string, k2: Kind, q2: Quality, iso2: string)
    requires (k1, q1) != (k2, q2)
    ensures TempFileName(k1, q1, iso1) != TempFileName(k2, q2, iso2)
  {
    var n1, n2 := TempFileName(k1, q1, iso1), TempFileName(k2, q2, iso2);
    if k1 != k2 {
      assert n1[0] != n2[0];
    } else if k1 == Person {
      assert n1[7] != n2[7];
    } else {
      assert n1[5] != n2[5];
    }
  }
}
