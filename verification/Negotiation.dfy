/** The client's side of the version exchange (server/anytls/session.go): the server may announce its settings before,
  * while or after dials wait for them. */
module Negotiation {
  import opened Bytes
  import opened Options

  datatype Settings = Settings(version: byte, done: bool, timedOut: bool)

  const FRESH := Settings(0, false, false)

  function Completed(s: Settings, v: byte): Settings {
    Settings(if s.version == 0 || s.timedOut then v else s.version, true, false)
  }

  function Expired(s: Settings): Settings {
    if s.version == 0 && !s.done then s.(timedOut := true) else s
  }

  /** What a dial learns at once; None when it has to wait. */
  function Known(s: Settings): Option<byte> {
    if s.done || s.version != 0 then Some(Answer(s))
    else if s.timedOut then Some(1)
    else None
  }

  /** What a dial reads once its wait is over. */
  function Answer(s: Settings): byte {
    if s.version == 0 then 1 else s.version
  }

  /** The fields of a client session that the exchange uses. */
  class Session {
    var peerVersion: byte
    var serverSettingsDone: bool
    var serverSettingsTimedOut: bool

    ghost function View(): Settings
      reads this
    {
      Settings(peerVersion, serverSettingsDone, serverSettingsTimedOut)
    }

    /** A version is on record only once one was announced, and a timeout only before that. */
    ghost predicate Valid()
      reads this
    {
      && (peerVersion != 0 ==> serverSettingsDone)
      && (serverSettingsTimedOut ==> !serverSettingsDone)
    }

    constructor ()
      ensures Valid() && View() == FRESH
    {
      peerVersion, serverSettingsDone, serverSettingsTimedOut := 0, false, false;
    }

    /** A version other than 0 that is on record stays. */
    method CompletePeerVersion(version: byte)
      requires Valid()
      modifies this
      ensures Valid() && View() == Completed(old(View()), version)
      ensures peerVersion == if old(peerVersion) != 0 then old(peerVersion) else version
      ensures serverSettingsDone && !serverSettingsTimedOut
    {
      if peerVersion == 0 || serverSettingsTimedOut {
        peerVersion := version;
      }
      serverSettingsDone := true;
      serverSettingsTimedOut := false;
    }

    /** A server's settings frame; parsed is its version line read as a number, cut to one byte. */
    method ReceiveServerSettings(parsed: Option<int>)
      requires Valid()
      modifies this
      ensures Valid() && View() == Completed(old(View()), Announced(parsed))
    {
      match parsed
      case Some(v) => CompletePeerVersion((v % 256) as byte);
      case None => CompletePeerVersion(1);
    }

    /** A dial waits exactly when nothing was announced and no timeout is on record, and goes by 0 in no case. */
    method ServerSettingsState() returns (version: byte, shouldWait: bool)
      requires Valid()
      ensures shouldWait <==> !serverSettingsDone && !serverSettingsTimedOut
      ensures !shouldWait ==> version == if peerVersion == 0 then 1 else peerVersion
      ensures match Known(View())
              case Some(v) => !shouldWait && version == v
              case None => shouldWait
    {
      if serverSettingsDone || peerVersion != 0 {
        if peerVersion == 0 {
          return 1, false;
        }
        return peerVersion, false;
      }
      if serverSettingsTimedOut {
        return 1, false;
      }
      return 0, true;
    }

    method MarkServerSettingsTimedOut()
      requires Valid()
      modifies this
      ensures Valid() && (serverSettingsTimedOut <==> !serverSettingsDone)
      ensures View() == Expired(old(View()))
    {
      if peerVersion == 0 && !serverSettingsDone {
        serverSettingsTimedOut := true;
      }
    }

    /** The end of a wait, after the settings came, the session closed, or the timer ran out. */
    method AfterWait(timerFired: bool) returns (version: byte)
      requires Valid()
      modifies this
      ensures Valid() && version != 0 && (version != 1 ==> serverSettingsDone)
      ensures View() == (if timerFired then Expired(old(View())) else old(View()))
      ensures version == Answer(View())
    {
      if timerFired {
        MarkServerSettingsTimedOut();
      }
      if peerVersion == 0 {
        return 1;
      }
      return peerVersion;
    }
  }

  function Announced(parsed: Option<int>): byte {
    match parsed
    case Some(v) => (v % 256) as byte
    case None => 1
  }

  // ---- Whole runs ----

  /** A server announces a version; or a waiting dial's timer runs out. */
  datatype Event = Announce(v: byte) | Timeout

  function Next(s: Settings, e: Event): Settings {
    match e
    case Announce(v) => Completed(s, v)
    case Timeout => Expired(s)
  }

  function Run(es: seq<Event>): Settings {
    if es == [] then FRESH else Next(Run(es[..|es| - 1]), es[|es| - 1])
  }

  /** The first version other than 0 that was announced, or 0. */
  function FirstVersion(es: seq<Event>): (v: byte) {
    if es == [] then 0
    else if es[0].Announce? && es[0].v != 0 then es[0].v
    else FirstVersion(es[1..])
  }

  lemma {:induction false} FirstVersionAppend(es: seq<Event>, e: Event)
    ensures FirstVersion(es + [e]) ==
      if FirstVersion(es) != 0 then FirstVersion(es) else if e.Announce? then e.v else 0
  {
    if es == [] {
      assert es + [e] == [e];
    } else {
      assert (es + [e])[1..] == es[1..] + [e];
      FirstVersionAppend(es[1..], e);
    }
  }

  /** The exchange is a latch on the first version announced; timeouts change nothing but the mark that they leave
    * until the first announcement. */
  lemma {:induction false} RunExact(es: seq<Event>)
    ensures Run(es).version == FirstVersion(es)
    ensures Run(es).done <==> exists e :: e in es && e.Announce?
    ensures Run(es).timedOut <==> Timeout in es && forall e :: e in es ==> !e.Announce?
  {
    if es != [] {
      var front, last := es[..|es| - 1], es[|es| - 1];
      RunExact(front);
      FirstVersionAppend(front, last);
      assert es == front + [last];
      assert last in es && forall e :: e in es <==> e in front || e == last;
      if !Run(front).done {
        Silent(front);
      }
    }
  }

  /** A timeout is on record only while nothing was announced, so a version is never overwritten because of one. */
  lemma TimedOutMeansSilent(es: seq<Event>)
    ensures Run(es).timedOut ==> !Run(es).done && Run(es).version == 0
  {
    RunExact(es);
    if Run(es).timedOut {
      Silent(es);
    }
  }

  lemma {:induction false} Silent(es: seq<Event>)
    requires forall e :: e in es ==> !e.Announce?
    ensures FirstVersion(es) == 0
  {
    if es != [] {
      Silent(es[1..]);
    }
  }

  /** Once a version other than 0 is on record, it stays, whatever follows. */
  lemma VersionLatches(es: seq<Event>, more: seq<Event>)
    requires Run(es).version != 0
    ensures Run(es + more).version == Run(es).version
  {
    RunExact(es);
    RunExact(es + more);
    FirstVersionPrefix(es, more);
  }

  lemma {:induction false} FirstVersionPrefix(es: seq<Event>, more: seq<Event>)
    requires FirstVersion(es) != 0
    ensures FirstVersion(es + more) == FirstVersion(es)
  {
    assert (es + more)[0] == es[0];
    if !(es[0].Announce? && es[0].v != 0) {
      assert (es + more)[1..] == es[1..] + more;
      FirstVersionPrefix(es[1..], more);
    }
  }

  /** No dial goes by version 0, and one that goes by anything but 1 goes by the first version announced. */
  lemma DialVersion(es: seq<Event>)
    ensures Answer(Run(es)) != 0 && (Known(Run(es)).Some? ==> Known(Run(es)).value == Answer(Run(es)))
    ensures Answer(Run(es)) == if FirstVersion(es) == 0 then 1 else FirstVersion(es)
    ensures Known(Run(es)) == None <==> es == []
  {
    RunExact(es);
    TimedOutMeansSilent(es);
    if es != [] {
      assert es[0].Announce? || es[0] == Timeout;
      assert es[0] in es;
    }
  }

  /** Settings that come after a dial has given up still decide what later dials go by. */
  lemma LateSettings(es: seq<Event>, v: byte)
    requires Run(es).timedOut && v != 0
    ensures Answer(Run(es)) == 1 && Answer(Run(es + [Announce(v)])) == v
  {
    TimedOutMeansSilent(es);
    assert (es + [Announce(v)])[..|es|] == es;
  }
}
