/**
 * Choice of the command that asks the proxy to reload its allow-lists
 * (`reload_squid`). Only the argument vector is modelled; running it is not.
 */
module SquidReload {
  import opened Wrappers

  /**
   * The environment variables read at each reload; `None` is an unset variable:
   * `EXTERNAL_SQUID`, `SQUID_RELOAD_METHOD`, `SQUID_CONTAINER_NAME`.
   */
  datatype ReloadEnv = ReloadEnv(
    externalSquid: Option<string>,
    reloadMethod: Option<string>,
    containerName: Option<string>)

  function LowerChar(c: char): char {
    if 'A' <= c <= 'Z' then (c as int + 32) as char else c
  }

  /** Lower-casing, on the ASCII letters only. */
  function Lower(s: string): (r: string)
    ensures |r| == |s|
    ensures forall i :: 0 <= i < |s| ==> r[i] == LowerChar(s[i])
  {
    if s == [] then [] else [LowerChar(s[0])] + Lower(s[1..])
  }

  /** The proxy runs outside the process: `EXTERNAL_SQUID`, default "false", reads "true" in any letter case. */
  predicate ExternalSquid(env: ReloadEnv) {
    Lower(env.externalSquid.GetOr("false")) == "true"
  }

  /** `SQUID_RELOAD_METHOD`, default "squid". */
  function ReloadMethod(env: ReloadEnv): string {
    env.reloadMethod.GetOr("squid")
  }

  /** `SQUID_CONTAINER_NAME`, default "squid-container". */
  function ContainerName(env: ReloadEnv): string {
    env.containerName.GetOr("squid-container")
  }

  const SquidReconfigure: seq<string> := ["squid", "-k", "reconfigure"]

  /** The argument vector run to reload the proxy, or `None` when reloading is left to the operator. */
  function ReloadCommand(env: ReloadEnv): (argv: Option<seq<string>>)
    ensures !ExternalSquid(env) ==> argv == Some(SquidReconfigure)
    ensures argv.None? <==> ExternalSquid(env) && ReloadMethod(env) == "none"
    ensures ExternalSquid(env) && ReloadMethod(env) !in {"systemctl", "service", "docker", "none"}
      ==> argv == Some(SquidReconfigure)
    ensures argv.Some? ==> "squid" in argv.value
  {
    if !ExternalSquid(env) then
      Some(SquidReconfigure)
    else
      var how := ReloadMethod(env);
      if how == "systemctl" then Some(["systemctl", "reload", "squid"])
      else if how == "service" then Some(["service", "squid", "reload"])
      else if how == "docker" then Some(["docker", "exec", ContainerName(env), "squid", "-k", "reconfigure"])
      else if how == "none" then None
      else Some(SquidReconfigure)
  }

  /** The ways the tracker can ask the proxy to reload, one per value of `SQUID_RELOAD_METHOD`
      (a proxy in the same container always takes `LocalReconfigure`). */
  datatype ReloadStrategy =
    | LocalReconfigure
    | ServiceManager
    | LegacyServiceCommand
    | Containerized(container: string)
    | ManualReload

  /** Selection of the variant from the configuration, as a table. */
  function StrategyFor(env: ReloadEnv): ReloadStrategy {
    match (ExternalSquid(env), ReloadMethod(env))
    case (false, _) => LocalReconfigure
    case (true, "systemctl") => ServiceManager
    case (true, "service") => LegacyServiceCommand
    case (true, "docker") => Containerized(ContainerName(env))
    case (true, "none") => ManualReload
    case (true, _) => LocalReconfigure
  }

  /** The command each variant runs. */
  function StrategyArgv(strategy: ReloadStrategy): Option<seq<string>> {
    match strategy
    case LocalReconfigure => Some(SquidReconfigure)
    case ServiceManager => Some(["systemctl", "reload", "squid"])
    case LegacyServiceCommand => Some(["service", "squid", "reload"])
    case Containerized(name) => Some(["docker", "exec", name] + SquidReconfigure)
    case ManualReload => None
  }

  /** The chain of conditionals in the source agrees with the variant table. */
  lemma ReloadCommandFollowsStrategy(env: ReloadEnv)
    ensures ReloadCommand(env) == StrategyArgv(StrategyFor(env))
  {
    var name := ContainerName(env);
    assert ["docker", "exec", name] + SquidReconfigure == ["docker", "exec", name, "squid", "-k", "reconfigure"];
  }

  /** The flag is compared without regard to ASCII case: exactly the sixteen spellings of "true". */
  lemma {:induction false} ExternalFlagSpellings(flag: string)
    ensures Lower(flag) == "true" <==>
      |flag| == 4 && flag[0] in "tT" && flag[1] in "rR" && flag[2] in "uU" && flag[3] in "eE"
  {
    var r := Lower(flag);
    if |flag| == 4 {
      assert r == "true" <==> r[0] == 't' && r[1] == 'r' && r[2] == 'u' && r[3] == 'e';
    }
  }

  /** With the proxy managed in-process, the method and the container name are ignored. */
  lemma InProcessIgnoresMethod(env: ReloadEnv, newMethod: Option<string>, name: Option<string>)
    requires !ExternalSquid(env)
    ensures ReloadCommand(env.(reloadMethod := newMethod, containerName := name)) == Some(SquidReconfigure)
  {
    assert !ExternalSquid(env.(reloadMethod := newMethod, containerName := name));
  }

  /** The container name is used by the docker method and by no other. */
  lemma ContainerNameOnlyForDocker(env: ReloadEnv, name: Option<string>)
    ensures ReloadCommand(env.(containerName := name)) != ReloadCommand(env)
      ==> ExternalSquid(env) && ReloadMethod(env) == "docker"
  {
  }
}
