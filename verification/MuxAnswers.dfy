/** What the two settings texts, read as version 2, bring about in every run: both sides agree on the version, and
  * every stream the server has accepted is answered. */
module MuxAnswers {
  import opened Bytes
  import opened Options
  import opened WireFormat
  import opened Mux
  import opened MuxFlow
  import opened MuxStays
  import opened MuxRuns

  ghost predicate Reads(version: seq<byte> -> Option<int>) {
    version(CLIENT_SETTINGS_TEXT) == Some(2) && version(SERVER_SETTINGS_TEXT) == Some(2)
  }

  /** The only settings texts on the way are the two that the sessions write. */
  ghost predicate Texts(st: State) {
    && (forall f :: f in st.toServer && Kind(f.cmd).Settings? ==> f.data == CLIENT_SETTINGS_TEXT)
    && (forall f :: f in st.toClient && Kind(f.cmd).ServerSettings? ==>
          f.data == SERVER_SETTINGS_TEXT && st.server.handshake.version == 2)
  }

  ghost predicate Versions(st: State) {
    var c, s := st.client, st.server;
    && s.handshake.version == (if s.handshake.received then 2 else 0)
    && (c.handshake.version == 0 || (c.handshake.version == 2 && s.handshake.version == 2))
    && (forall id :: id in c.calls.decided ==>
          c.calls.decided[id] == 1 || (c.calls.decided[id] == 2 && s.handshake.version == 2))
  }

  ghost predicate OnWay(w: seq<Frame>, id: Id) {
    exists f :: f in w && Kind(f.cmd).Synack? && f.streamID == id
  }

  /** The answer for an accepted stream is on its way or there, unless the client has given the stream up. */
  ghost predicate Answered(st: State, id: Id) {
    id in st.server.accepted && id in st.client.table.known && !st.client.closed ==>
      st.client.Obj(id).synack != None || OnWay(st.toClient, id)
  }

  ghost predicate Agreed(st: State) {
    Texts(st) && Versions(st) && forall id: Id {:trigger Answered(st, id)} :: Answered(st, id)
  }

  lemma ClientTakes(st: State, drop: bool, version: seq<byte> -> Option<int>, id: Id)
    requires Inv(Loose, st) && Agreed(st) && Reads(version) && Enabled(st, Receive(true, drop))
    ensures var st' := Step(st, Receive(true, drop), version);
            Texts(st') && Versions(st') && Answered(st', id)
  {
    ClientReceives(Loose, st, drop, version);
    assert Answered(st, id);
    var f, w := st.toClient[0], st.toClient[1..];
    assert forall g :: g in st.toClient <==> g == f || g in w;
    Prepared(Loose, st, true, drop);
  }

  lemma ServerTexts(st: State, drop: bool, version: seq<byte> -> Option<int>)
    requires Texts(st) && Versions(st) && Reads(version) && Enabled(st, Receive(false, drop)) && !st.server.isClient
    requires Proper(st.server, st.toServer[0])
    ensures var st' := Step(st, Receive(false, drop), version); Texts(st') && Versions(st')
  {
  }

  lemma ServerAnswers(st: State, drop: bool, version: seq<byte> -> Option<int>, id: Id)
    requires Answered(st, id) && Versions(st) && Enabled(st, Receive(false, drop)) && !st.server.isClient
    requires Proper(st.server, st.toServer[0])
    ensures Answered(Step(st, Receive(false, drop), version), id)
  {
    var out := st.server.Answer(st.toServer[0], version);
    assert forall g :: g in st.toClient ==> g in st.toClient + out;
    assert out != [] ==> out == [out[0]] && (st.toClient + out)[|st.toClient|] == out[0];
  }

  lemma OtherTexts(st: State, a: Action, version: seq<byte> -> Option<int>)
    requires Texts(st) && Versions(st) && Enabled(st, a) && !a.Receive?
    ensures Texts(Step(st, a, version)) && Versions(Step(st, a, version))
  {
    OtherVersions(st, a, version);
  }

  lemma OtherVersions(st: State, a: Action, version: seq<byte> -> Option<int>)
    requires Versions(st) && Enabled(st, a) && !a.Receive?
    ensures Versions(Step(st, a, version))
    ensures Step(st, a, version).server.handshake == st.server.handshake
  {
  }

  lemma QuietAnswered(st: State, a: Action, version: seq<byte> -> Option<int>, id: Id)
    requires Inv(Loose, st) && Answered(st, id) && Enabled(st, a) && Quiet(a)
    ensures Answered(Step(st, a, version), id)
  {
    assert Sound(Loose, st, id);
  }

  lemma SendAnswered(st: State, a: Action, version: seq<byte> -> Option<int>, id: Id)
    requires Answered(st, id) && Enabled(st, a) && !Quiet(a) && !a.Receive?
    ensures Answered(Step(st, a, version), id)
  {
    assert forall g :: g in st.toClient ==> g in Step(st, a, version).toClient;
  }

  lemma {:induction false} RunAgreed(sts: seq<State>, acts: seq<Action>, version: seq<byte> -> Option<int>, k: nat)
    requires IsRun(sts, acts, version) && Reads(version) && k < |sts|
    ensures Agreed(sts[k])
  {
    if k == 0 {
      assert forall id: Id :: Answered(INIT, id);
    } else {
      RunAgreed(sts, acts, version, k - 1);
      RunInv(Loose, sts, acts, version, k - 1);
      var st, a := sts[k - 1], acts[k - 1];
      forall id: Id ensures Texts(sts[k]) && Versions(sts[k]) && Answered(sts[k], id) {
        if a.Receive? && a.atClient {
          ClientTakes(st, a.drop, version, id);
        } else if a.Receive? {
          assert FromClient(st.toServer[0]);
          Prepared(Loose, st, false, a.drop);
          assert Answered(st, id);
          ServerTexts(st, a.drop, version);
          ServerAnswers(st, a.drop, version, id);
        } else {
          OtherTexts(st, a, version);
          assert Answered(st, id);
          if Quiet(a) {
            QuietAnswered(st, a, version, id);
          } else {
            SendAnswered(st, a, version, id);
          }
        }
      }
      assert Answered(sts[k], 0);
    }
  }

  /** Once the client's settings have arrived the server speaks version 2; a client that does not speak it yet goes by
    * nothing or by the fallback 1, and no dial goes by a version the server does not speak. */
  lemma VersionsAgree(sts: seq<State>, acts: seq<Action>, version: seq<byte> -> Option<int>, k: nat)
    requires IsRun(sts, acts, version) && Reads(version) && k < |sts|
    ensures Versions(sts[k])
  {
    RunAgreed(sts, acts, version, k);
  }

  /** No dial waits in vain for a missing answer: the SYNACK of every accepted stream has come or is on its way, until
    * the client gives the stream up. */
  lemma EveryStreamAnswered(sts: seq<State>, acts: seq<Action>, version: seq<byte> -> Option<int>, k: nat, id: Id)
    requires IsRun(sts, acts, version) && Reads(version) && k < |sts|
    ensures Answered(sts[k], id)
  {
    RunAgreed(sts, acts, version, k);
  }
}
