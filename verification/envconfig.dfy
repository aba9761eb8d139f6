/** Configuration read from the process environment: the boolean flag
    reader and the choice of event-store backend. */
module EnvConfig {
  import opened Optional

  /** The process environment, variable name to value. */
  type Environment = map<string, string>

  /** `os.LookupEnv`. */
  function LookupEnv(env: Environment, key: string): (r: Option<string>)
    ensures r.Some? <==> key in env
    ensures r.Some? ==> r.value == env[key]
  {
    if key in env then Some(env[key]) else None
  }

  /** `getEnvBool`: a flag is on only when the variable is set to exactly
      "true"; unset, "TRUE", "1" and every other value mean off. */
  function GetEnvBool(env: Environment, key: string): (b: bool)
    ensures b ==> key in env && env[key] == "true"
    ensures key in env && env[key] == "true" ==> b
  {
    match LookupEnv(env, key)
    case None => false
    case Some(value) => value == "true"
  }

  /** The event stores the relay can run on. */
  datatype Backend = Lmdb(path: string) | Badger(path: string) | Postgres

  /** The engine named when `DB_ENGINE` is unset. */
  const DefaultEngine := "postgres"

  /** `newDBBackend`: the engine setting after defaulting (the function
      writes the default back into the configuration) and the backend it
      selects. */
  datatype Selection = Selection(engine: string, backend: Backend)

  function NewDbBackend(dbEngine: Option<string>, path: string): (s: Selection)
    ensures dbEngine.None? ==> s.engine == DefaultEngine
    ensures dbEngine.Some? ==> s.engine == dbEngine.value
    ensures s.backend == Lmdb(path) <==> s.engine == "lmdb"
    ensures s.backend == Badger(path) <==> s.engine == "badger"
    ensures s.backend == Postgres <==> s.engine != "lmdb" && s.engine != "badger"
  {
    var engine := match dbEngine
      case None => DefaultEngine
      case Some(e) => e;
    var backend := match engine
      case "lmdb" => Lmdb(path)
      case "badger" => Badger(path)
      case _ => Postgres;
    Selection(engine, backend)
  }

  /** The setting that names each backend. */
  function EngineName(b: Backend): (name: string)
    ensures name in {"lmdb", "badger", DefaultEngine}
  {
    match b
    case Lmdb(_) => "lmdb"
    case Badger(_) => "badger"
    case Postgres => DefaultEngine
  }

  /** Naming a backend's engine selects that backend, at the given path. */
  lemma SelectsNamedEngine(b: Backend, path: string)
    requires !b.Postgres? ==> b.path == path
    ensures NewDbBackend(Some(EngineName(b)), path).backend == b
  {
  }

  /** Leaving `DB_ENGINE` unset is the same as setting it to "postgres". */
  lemma UnsetMeansPostgres(path: string)
    ensures NewDbBackend(None, path) == NewDbBackend(Some(DefaultEngine), path)
    ensures NewDbBackend(None, path).backend == Postgres
  {
  }
}
