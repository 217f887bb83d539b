/**
 * `config.rs`: the default configuration, the checks an installation
 * directory must pass, and how the installation mode is detected. The
 * file-system queries the Rust code makes are the fields of
 * `Installation`; reading and writing config.json is I/O and is not
 * modelled.
 */
module Config {

  import opened Wrappers
  import opened ErrorHandler

  /** `InstallationMode`. */
  datatype InstallationMode = Update | FreshInstall

  /** The settings kept in config.json. */
  datatype Config = Config(
    currentVersion: string,
    githubRepo: string,
    installationPath: string,
    exePath: string,
    preserveFolders: seq<string>,
    updateCheckUrl: string,
    lastCheck: string,
    autoCheck: bool,
    installationMode: InstallationMode)

  /** The mode a config.json without the field is read with. */
  function DefaultInstallationMode(): InstallationMode {
    Update
  }

  /** `create_default`; `now` is the RFC 3339 text of the current time. */
  function CreateDefault(now: string): (c: Config)
    ensures c.currentVersion == "0.0.0" && c.installationPath == "" && c.exePath == "Makeplace.exe"
    ensures c.preserveFolders == ["Makeplace/Custom", "Makeplace/Save"]
    ensures c.autoCheck && c.lastCheck == now
    ensures c.githubRepo == "RemakePlace/app"
    ensures c.updateCheckUrl == "https://api.github.com/repos/RemakePlace/app/releases/latest"
    ensures c.installationMode == DefaultInstallationMode()
  {
    Config(
      "0.0.0",
      "RemakePlace/app",
      "",
      "Makeplace.exe",
      ["Makeplace/Custom", "Makeplace/Save"],
      "https://api.github.com/repos/RemakePlace/app/releases/latest",
      now,
      true,
      Update)
  }

  /**
   * What the file system says about a candidate installation directory:
   * whether it exists and is a directory, how writing the ".write_test"
   * file went (the I/O error text on failure), whether the executable
   * exists there and is a file, and how its joined path displays.
   */
  datatype Installation = Installation(
    exists_: bool,
    isDir: bool,
    writeError: Option<string>,
    exeExists: bool,
    exeIsFile: bool,
    exeDisplay: string)

  /** Why a directory is refused, with what the messages need. */
  datatype PathProblem =
    | EmptyPath
    | Missing(path: string)
    | NotADirectory(path: string)
    | NotWritable(reason: string)
    | ExeMissing(exeName: string, exeDisplay: string)
    | ExeNotAFile(exeName: string, exeDisplay: string)

  /** The `ErrorInfo` fields of a refusal (message texts are built in `Describe`). */
  datatype PathError = PathError(
    category: ErrorCategory,
    userMessage: string,
    technicalDetails: string,
    recoverySuggestion: string,
    isRetryable: bool)

  /** The category each refusal is reported under. */
  function ProblemCategory(p: PathProblem): ErrorCategory {
    match p
    case Missing(_) => FileSystem
    case NotWritable(_) => Permission
    case _ => Validation
  }

  /** The user message of each refusal. */
  function UserMessage(p: PathProblem): string {
    match p
    case EmptyPath => "Please select an installation directory."
    case Missing(_) => "The selected directory does not exist."
    case NotADirectory(_) => "The selected path is not a directory."
    case NotWritable(_) => "Cannot write to the selected directory."
    case ExeMissing(exe, _) => "Could not find " + exe + " in the selected directory."
    case ExeNotAFile(exe, _) => exe + " exists but is not a valid executable file."
  }

  /** The technical details of each refusal. */
  function TechnicalDetails(p: PathProblem): string {
    match p
    case EmptyPath => "Empty path provided"
    case Missing(path) => "Path does not exist: " + path
    case NotADirectory(path) => "Path is not a directory: " + path
    case NotWritable(reason) => "Write permission test failed: " + reason
    case ExeMissing(_, shown) => "Executable not found: " + shown
    case ExeNotAFile(_, shown) => "Path is not a file: " + shown
  }

  /** The recovery suggestion of each refusal. */
  function RecoverySuggestion(p: PathProblem): string {
    match p
    case EmptyPath => "Use the Browse button to select a folder."
    case Missing(_) => "Create the directory or select an existing one."
    case NotADirectory(_) => "Select a directory, not a file."
    case NotWritable(_) => "Choose a different directory or run as administrator."
    case ExeMissing(_, _) => "Select the directory containing your ReMakeplace installation."
    case ExeNotAFile(_, _) => "Select the correct directory containing the ReMakeplace executable."
  }

  /** The `ErrorInfo` `validate_installation_path_detailed` builds for a refusal; none is retryable. */
  function Describe(p: PathProblem): (e: PathError)
    ensures e.category == ProblemCategory(p) && !e.isRetryable
  {
    PathError(ProblemCategory(p), UserMessage(p), TechnicalDetails(p), RecoverySuggestion(p), false)
  }

  /**
   * `validate_installation_path_detailed`: the checks in order (empty,
   * exists, directory, writable, and in Update mode the executable), the
   * first that fails deciding the refusal.
   */
  function ValidateDetailed(path: string, exeName: string, mode: InstallationMode, fs: Installation)
    : Result<(), PathProblem>
  {
    if path == [] then Failure(EmptyPath)
    else if !fs.exists_ then Failure(Missing(path))
    else if !fs.isDir then Failure(NotADirectory(path))
    else if fs.writeError.Some? then Failure(NotWritable(fs.writeError.value))
    else if mode == Update && !fs.exeExists then Failure(ExeMissing(exeName, fs.exeDisplay))
    else if mode == Update && !fs.exeIsFile then Failure(ExeNotAFile(exeName, fs.exeDisplay))
    else Success(())
  }

  /** `validate_installation_path`: whether the detailed check passes. */
  predicate ValidateInstallationPath(path: string, exeName: string, mode: InstallationMode, fs: Installation) {
    ValidateDetailed(path, exeName, mode, fs).Success?
  }

  /** Each refusal is reported exactly when its check is the first to fail. */
  lemma ValidationOrder(path: string, exeName: string, mode: InstallationMode, fs: Installation)
    ensures var r := ValidateDetailed(path, exeName, mode, fs);
      && (r == Failure(EmptyPath) <==> path == [])
      && (r == Failure(Missing(path)) <==> path != [] && !fs.exists_)
      && (r == Failure(NotADirectory(path)) <==> path != [] && fs.exists_ && !fs.isDir)
      && (r.Failure? && r.error.NotWritable? <==> path != [] && fs.exists_ && fs.isDir && fs.writeError.Some?)
      && (r.Failure? && r.error.ExeMissing? <==>
            path != [] && fs.exists_ && fs.isDir && fs.writeError.None? && mode == Update && !fs.exeExists)
      && (r.Failure? && r.error.ExeNotAFile? <==>
            path != [] && fs.exists_ && fs.isDir && fs.writeError.None? && mode == Update && fs.exeExists
            && !fs.exeIsFile)
      && (r.Success? <==>
            path != [] && fs.exists_ && fs.isDir && fs.writeError.None?
            && (mode == Update ==> fs.exeExists && fs.exeIsFile))
  {
  }

  /** Every refusal is reported as not retryable. */
  lemma RefusalsNotRetryable(path: string, exeName: string, mode: InstallationMode, fs: Installation)
    requires ValidateDetailed(path, exeName, mode, fs).Failure?
    ensures !Describe(ValidateDetailed(path, exeName, mode, fs).error).isRetryable
  {
  }

  /** A fresh install asks less of the directory than an update: the executable does not matter. */
  lemma FreshInstallIgnoresExe(path: string, exeName: string, fs: Installation, other: Installation)
    requires other == fs.(exeExists := other.exeExists, exeIsFile := other.exeIsFile, exeDisplay := other.exeDisplay)
    ensures ValidateInstallationPath(path, exeName, FreshInstall, fs)
        == ValidateInstallationPath(path, exeName, FreshInstall, other)
    ensures ValidateInstallationPath(path, exeName, Update, fs) ==> ValidateInstallationPath(path, exeName, FreshInstall, fs)
  {
  }

  /**
   * `detect_installation_mode`: Update exactly when the directory is
   * given, exists and holds the executable as a file.
   */
  function DetectInstallationMode(path: string, fs: Installation): InstallationMode {
    if path == [] then FreshInstall
    else if !fs.exists_ then FreshInstall
    else if fs.exeExists && fs.exeIsFile then Update
    else FreshInstall
  }

  /**
   * Detection agrees with validation: a directory that passes the Update
   * checks is detected as an update, and a detected update passes them
   * whenever it is a writable directory.
   */
  lemma DetectionMatchesValidation(path: string, exeName: string, fs: Installation)
    ensures ValidateInstallationPath(path, exeName, Update, fs) ==> DetectInstallationMode(path, fs) == Update
    ensures DetectInstallationMode(path, fs) == Update && fs.isDir && fs.writeError.None? ==>
      ValidateInstallationPath(path, exeName, Update, fs)
    ensures DetectInstallationMode(path, fs) == Update <==> path != [] && fs.exists_ && fs.exeExists && fs.exeIsFile
  {
  }

  /** A new default configuration has no directory yet: it is refused and detected as a fresh install. */
  lemma DefaultNeedsDirectory(now: string, fs: Installation)
    ensures var c := CreateDefault(now);
      && ValidateDetailed(c.installationPath, c.exePath, c.installationMode, fs) == Failure(EmptyPath)
      && DetectInstallationMode(c.installationPath, fs) == FreshInstall
  {
  }
}
