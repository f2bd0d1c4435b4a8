/** First-owner bootstrap: replicas race to mint one install token, one request
    redeems it, and the endpoint is sealed from then on. */
module Bootstrap {
  import opened Wrappers
  import opened Text

  // ----- the two transactions, each under the same advisory lock -----

  datatype Shared = Shared(orgs: nat, row: Option<string>)

  datatype CreateResult = Won | Lost | CreateAlreadyDone | CreateFailed

  datatype ConsumeResult = Consumed | ConsumeAlreadyDone | TokenMismatch | ConsumeFailed

  /** `down`: the database rejects the transaction. */
  function CreateBootstrapState(s: Shared, hash: string, down: bool): (Shared, CreateResult) {
    if hash == "" || down then (s, CreateFailed)
    else if s.orgs > 0 then (s, CreateAlreadyDone)
    else if s.row.Some? then (s, Lost)
    else (s.(row := Some(hash)), Won)
  }

  /** On a match the organization is created and the row deleted in one
      transaction; `down` also stands for its other inserts failing. */
  function ConsumeBootstrapState(s: Shared, hash: string, down: bool): (Shared, ConsumeResult) {
    if hash == "" then (s, ConsumeFailed)
    else if s.row.None? then (s, if down then ConsumeFailed else ConsumeAlreadyDone)
    else if s.row.value != hash then (s, if down then ConsumeFailed else TokenMismatch)
    else if down then (s, ConsumeFailed)
    else (Shared(s.orgs + 1, None), Consumed)
  }

  /** What a create comes to: the first one wins an empty database. */
  lemma CreateOutcomes(s: Shared, hash: string, down: bool)
    ensures
      var (t, r) := CreateBootstrapState(s, hash, down);
      && (hash == "" || down ==> r == CreateFailed)
      && (hash != "" && !down ==>
            && (r == Won <==> s.orgs == 0 && s.row == None)
            && (r == Lost <==> s.orgs == 0 && s.row != None)
            && (r == CreateAlreadyDone <==> s.orgs > 0))
      && t == if r == Won then Shared(0, Some(hash)) else s
  {
  }

  /** What a consume comes to: only the hash of the row makes the organization, and it takes
      the row away. */
  lemma ConsumeOutcomes(s: Shared, hash: string, down: bool)
    ensures
      var (t, r) := ConsumeBootstrapState(s, hash, down);
      && (hash == "" || down ==> r == ConsumeFailed)
      && (hash != "" && !down ==>
            && (r == Consumed <==> s.row == Some(hash))
            && (r == ConsumeAlreadyDone <==> s.row == None)
            && (r == TokenMismatch <==> s.row != None && s.row != Some(hash)))
      && t == if r == Consumed then Shared(s.orgs + 1, None) else s
  {
  }

  // ----- the race -----

  /** A replica inside MaybeGenerateInstallToken. */
  datatype Replica = Starting | CountedNone | HasToken(hash: string) | Settled

  datatype State = State(
    shared: Shared,
    replicas: map<nat, Replica>,
    wins: seq<string>,       // the hashes whose create won, in order
    consumed: seq<string>)   // the hashes whose consume succeeded, in order

  datatype Action =
    | Boot(pid: nat)                          // a replica starts or restarts, whatever it was doing
    | Count(pid: nat)
    | DrawToken(pid: nat, hash: string)
    | Create(pid: nat, down: bool)
    | Consume(hash: string, down: bool)
    | OtherOrganization                       // an organization made on some other path

  function Apply(s: State, a: Action): State {
    match a
    case Boot(pid) => s.(replicas := s.replicas[pid := Starting])
    case Count(pid) =>
      if pid in s.replicas && s.replicas[pid].Starting? then
        s.(replicas := s.replicas[pid := if s.shared.orgs > 0 then Settled else CountedNone])
      else s
    case DrawToken(pid, hash) =>
      if pid in s.replicas && s.replicas[pid].CountedNone? then
        s.(replicas := s.replicas[pid := HasToken(hash)])
      else s
    case Create(pid, down) =>
      if pid in s.replicas && s.replicas[pid].HasToken? then
        var hash := s.replicas[pid].hash;
        var (shared, r) := CreateBootstrapState(s.shared, hash, down);
        s.(shared := shared, replicas := s.replicas[pid := Settled],
           wins := if r.Won? then s.wins + [hash] else s.wins)
      else s
    case Consume(hash, down) =>
      var (shared, r) := ConsumeBootstrapState(s.shared, hash, down);
      s.(shared := shared, consumed := if r.Consumed? then s.consumed + [hash] else s.consumed)
    case OtherOrganization => s.(shared := s.shared.(orgs := s.shared.orgs + 1))
  }

  /** A start that nobody disturbs: with an organization in the database the replica settles and
      draws nothing, without one it wins exactly an empty row. */
  lemma UndisturbedStart(s: State, pid: nat, hash: string, down: bool)
    ensures
      var counted := Apply(Apply(s, Boot(pid)), Count(pid));
      var t := Apply(Apply(counted, DrawToken(pid, hash)), Create(pid, down));
      var won := s.shared.orgs == 0 && s.shared.row.None? && hash != "" && !down;
      && pid in counted.replicas && counted.replicas[pid] == (if s.shared.orgs > 0 then Settled else CountedNone)
      && (s.shared.orgs > 0 ==> t == counted)
      && t.replicas == s.replicas[pid := Settled]
      && t.shared == (if won then Shared(0, Some(hash)) else s.shared)
      && t.wins == (if won then s.wins + [hash] else s.wins) && t.consumed == s.consumed
  {
  }

  /** A run from a database with `orgs` organizations and no bootstrap row. */
  function Exec(orgs: nat, actions: seq<Action>): State {
    if actions == [] then State(Shared(orgs, None), map[], [], [])
    else Apply(Exec(orgs, actions[..|actions| - 1]), actions[|actions| - 1])
  }

  predicate Inv(s: State) {
    || (s.wins == [] && s.consumed == [] && s.shared.row.None?)
    || (|s.wins| == 1 && s.consumed == [] && s.shared.row == Some(s.wins[0]))
    || (|s.wins| == 1 && s.consumed == s.wins && s.shared.row.None? && s.shared.orgs > 0)
  }

  lemma {:induction false} Reachable(orgs: nat, actions: seq<Action>)
    ensures Inv(Exec(orgs, actions))
  {
    if actions != [] {
      Reachable(orgs, actions[..|actions| - 1]);
    }
  }

  /** In every interleaving at most one create wins and at most one consume
      succeeds, and the consume carries the winner's hash. */
  lemma SingleWinner(orgs: nat, actions: seq<Action>)
    ensures
      var s := Exec(orgs, actions);
      && |s.wins| <= 1 && |s.consumed| <= 1
      && s.consumed <= s.wins
      && (s.shared.row.Some? ==> s.wins == [s.shared.row.value] && s.consumed == [])
      && (s.consumed != [] ==> s.shared.orgs > 0)
  {
    Reachable(orgs, actions);
  }

  lemma {:induction false} Grows(orgs: nat, actions: seq<Action>, i: nat)
    requires i <= |actions|
    ensures Exec(orgs, actions[..i]).wins <= Exec(orgs, actions).wins
    ensures Exec(orgs, actions[..i]).consumed <= Exec(orgs, actions).consumed
    ensures Exec(orgs, actions[..i]).shared.orgs <= Exec(orgs, actions).shared.orgs
    decreases |actions|
  {
    if i < |actions| {
      assert actions[..|actions| - 1][..i] == actions[..i];
      Grows(orgs, actions[..|actions| - 1], i);
    } else {
      assert actions[..i] == actions;
    }
  }

  /** Once a consume has succeeded the endpoint is sealed: whatever happens
      later, no row comes back and no token is redeemed, not even through a replica
      that counted zero organizations before the consume. */
  lemma SealedForever(orgs: nat, actions: seq<Action>, i: nat, hash: string, down: bool)
    requires i <= |actions| && Exec(orgs, actions[..i]).consumed != []
    ensures
      var s := Exec(orgs, actions);
      && s.shared.row.None? && s.shared.orgs > 0
      && s.wins == s.consumed == Exec(orgs, actions[..i]).consumed
      && !ConsumeBootstrapState(s.shared, hash, down).1.Consumed?
      && !CreateBootstrapState(s.shared, hash, down).1.Won?
  {
    Grows(orgs, actions, i);
    Reachable(orgs, actions[..i]);
    Reachable(orgs, actions);
  }

  /** While a row stands, its token and only its token redeems it. */
  lemma OnlyWinnersTokenRedeems(orgs: nat, actions: seq<Action>, hash: string)
    requires hash != ""
    ensures
      var s := Exec(orgs, actions);
      ConsumeBootstrapState(s.shared, hash, false).1.Consumed? <==> s.wins == [hash] && s.consumed == []
  {
    Reachable(orgs, actions);
  }

  // ----- one replica's start-up -----

  const ENV_TOKEN := "BOOTSTRAP_INSTALL_TOKEN"
  const ENV_FILE := "BOOTSTRAP_TOKEN_FILE_PATH"
  const ENV_BANNER := "BOOTSTRAP_PRINT_BANNER"
  const DEFAULT_FILE := "/var/run/axiaops/initial_setup_token"

  datatype InstallTokenResult = InstallTokenResult(generated: bool, skipped: bool, filePath: string)

  datatype InstallError = CountError | EntropyError | CreateError

  datatype Faults = Faults(count: bool, entropy: bool, create: bool, writeFile: bool)

  function Getenv(env: map<string, string>, name: string): string {
    if name in env then env[name] else ""
  }

  /** The operator's token if one is set, or the drawn one. */
  function InstallToken(env: map<string, string>, drawn: string): string {
    var v := TrimSpace(Getenv(env, ENV_TOKEN));
    if v != "" then v else drawn
  }

  function TokenFile(env: map<string, string>): string {
    if ENV_FILE in env then TrimSpace(env[ENV_FILE]) else DEFAULT_FILE
  }

  predicate NeedsEntropy(env: map<string, string>) {
    TrimSpace(Getenv(env, ENV_TOKEN)) == ""
  }

  /** What goes to stderr: the token, if it was asked for and none was supplied. */
  function Banner(env: map<string, string>, token: string): Option<string> {
    if Getenv(env, ENV_TOKEN) == "" && Getenv(env, ENV_BANNER) == "true" then Some(token) else None
  }

  class Installation {
    const hashToken: string -> string
    var shared: Shared
    var files: map<string, string>
    var env: map<string, string>
    var banner: Option<string>   // the token printed to stderr, if any

    constructor (hashToken: string -> string, shared: Shared, env: map<string, string>)
      ensures this.hashToken == hashToken && this.shared == shared && this.env == env
      ensures files == map[] && banner.None?
    {
      this.hashToken := hashToken;
      this.shared := shared;
      this.env := env;
      files := map[];
      banner := None;
    }

    /** `others` is what other replicas and requests do to the database between the count
        and the create. What the call leaves behind is decided by the organizations, the
        create and the environment; the token in the file and on the banner is the one
        whose hash stands in the row. */
    method MaybeGenerateInstallToken(drawn: string, others: Shared -> Shared, f: Faults)
      returns (r: Result<InstallTokenResult, InstallError>)
      modifies this`shared, this`files, this`banner
      ensures
        var supplied := if "BOOTSTRAP_INSTALL_TOKEN" in env then TrimSpace(env["BOOTSTRAP_INSTALL_TOKEN"]) else "";
        var hash := hashToken(if supplied != "" then supplied else drawn);
        var db := others(old(shared));
        if f.count then r == Err(CountError) && shared == old(shared)
        else if old(shared).orgs > 0 then r == Ok(InstallTokenResult(false, true, "")) && shared == old(shared)
        else if supplied == "" && f.entropy then r == Err(EntropyError) && shared == old(shared)
        else if hash == "" || f.create then r == Err(CreateError) && shared == db
        else if db.orgs > 0 then r == Ok(InstallTokenResult(false, true, "")) && shared == db
        else if db.row.Some? then r == Ok(InstallTokenResult(false, false, "")) && shared == db
        else
          var path := if "BOOTSTRAP_TOKEN_FILE_PATH" in env then TrimSpace(env["BOOTSTRAP_TOKEN_FILE_PATH"])
                      else "/var/run/axiaops/initial_setup_token";
          r == Ok(InstallTokenResult(true, false, if f.writeFile then "" else path)) && shared == Shared(0, Some(hash))
      ensures
        r.Ok? && r.value.generated ==>
          var supplied := if "BOOTSTRAP_INSTALL_TOKEN" in env then TrimSpace(env["BOOTSTRAP_INSTALL_TOKEN"]) else "";
          var token := if supplied != "" then supplied else drawn;
          && ConsumeBootstrapState(shared, hashToken(token), false).1.Consumed?
          && files == (if r.value.filePath != "" then old(files)[r.value.filePath := token] else old(files))
          && banner == if ("BOOTSTRAP_INSTALL_TOKEN" !in env || env["BOOTSTRAP_INSTALL_TOKEN"] == "")
                          && "BOOTSTRAP_PRINT_BANNER" in env && env["BOOTSTRAP_PRINT_BANNER"] == "true"
                       then Some(token) else old(banner)
      ensures !(r.Ok? && r.value.generated) ==> files == old(files) && banner == old(banner)
    {
      if f.count {
        return Err(CountError);
      }
      if shared.orgs > 0 {
        return Ok(InstallTokenResult(false, true, ""));
      }
      var v := TrimSpace(Getenv(env, ENV_TOKEN));
      if v == "" && f.entropy {
        return Err(EntropyError);
      }
      var plaintext := if v != "" then v else drawn;
      shared := others(shared);
      var created := CreateBootstrapState(shared, hashToken(plaintext), f.create);
      if created.1.CreateFailed? {
        return Err(CreateError);
      }
      if created.1.CreateAlreadyDone? {
        return Ok(InstallTokenResult(false, true, ""));
      }
      if created.1.Lost? {
        return Ok(InstallTokenResult(false, false, ""));
      }
      shared := created.0;
      var filePath := "";
      var path := TokenFile(env);
      if path != "" && !f.writeFile {
        files := files[path := plaintext];
        filePath := path;
      }
      if Getenv(env, ENV_TOKEN) == "" && Getenv(env, ENV_BANNER) == "true" {
        banner := Some(plaintext);
      }
      return Ok(InstallTokenResult(true, false, filePath));
    }

    /** The handler's clean-up after a successful consume: no trace of the token
        is left in the file or in this process's environment. */
    method CleanUp(removeFails: bool)
      modifies this`files, this`env
      ensures env == old(env) - {"BOOTSTRAP_INSTALL_TOKEN"}
      ensures
        var path := if "BOOTSTRAP_TOKEN_FILE_PATH" in old(env) then TrimSpace(old(env)["BOOTSTRAP_TOKEN_FILE_PATH"])
                    else "/var/run/axiaops/initial_setup_token";
        files == if removeFails || path == "" then old(files) else old(files) - {path}
    {
      var path := TokenFile(env);
      if path != "" && !removeFails {
        files := files - {path};
      }
      env := env - {ENV_TOKEN};
    }
  }

  lemma {:induction false} TrimLeftIsEmpty(s: string)
    ensures TrimLeft(s) == "" <==> forall c | c in s :: IsSpace(c)
  {
    if s != "" {
      TrimLeftIsEmpty(s[1..]);
      assert s == [s[0]] + s[1..];
    }
  }

  lemma {:induction false} TrimRightIsEmpty(s: string)
    ensures TrimRight(s) == "" <==> forall c | c in s :: IsSpace(c)
  {
    if s != "" {
      TrimRightIsEmpty(s[..|s| - 1]);
      assert s == s[..|s| - 1] + [s[|s| - 1]];
    }
  }

  lemma {:induction false} TrimLeftKeeps(s: string)
    ensures TrimLeft(s) != "" ==> !IsSpace(TrimLeft(s)[0])
  {
    if s != "" {
      TrimLeftKeeps(s[1..]);
    }
  }

  lemma TrimSpaceIsEmpty(s: string)
    ensures TrimSpace(s) == "" <==> forall c | c in s :: IsSpace(c)
  {
    TrimLeftIsEmpty(s);
    TrimRightIsEmpty(TrimLeft(s));
    TrimLeftKeeps(s);
    if TrimLeft(s) != "" {
      assert TrimLeft(s)[0] in TrimLeft(s);
    }
  }

  /** The banner is suppressed by the raw variable, the token chosen by the trimmed one.
      So a drawn token whose banner was asked for is not shown exactly if
      BOOTSTRAP_INSTALL_TOKEN is blank but not empty. */
  lemma DrawnTokenIsHidden(env: map<string, string>, drawn: string)
    requires "BOOTSTRAP_PRINT_BANNER" in env && env["BOOTSTRAP_PRINT_BANNER"] == "true"
    ensures
      var v := if "BOOTSTRAP_INSTALL_TOKEN" in env then env["BOOTSTRAP_INSTALL_TOKEN"] else "";
      && (v == "" ==> InstallToken(env, drawn) == drawn && Banner(env, drawn) == Some(drawn))
      && (v != "" ==> Banner(env, InstallToken(env, drawn)).None?)
      && (NeedsEntropy(env) && Banner(env, drawn).None? <==> v != "" && forall c | c in v :: IsSpace(c))
      && InstallToken(env, drawn) == if TrimSpace(v) == "" then drawn else TrimSpace(v)
  {
    TrimSpaceIsEmpty(Getenv(env, ENV_TOKEN));
    hide TrimSpace, IsSpace;
  }
}
