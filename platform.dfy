/**
 * What the shell asks of the operating system, passed in as a value: the file
 * system (`Directory.Exists`, `Directory.GetDirectories`), path normalisation
 * (`Path.GetFullPath`) and the command interpreter (`cmd.exe /c <line>`).
 */
module Platform {
  import opened Wrappers

  /** How a run of the command interpreter ended: both captured streams, or the
      message of the exception `Process.Start` threw. */
  datatype ProcessOutcome =
    | Exited(stdout: string, stderr: string)
    | FailedToStart(message: string)

  datatype Host = Host(
    /** the paths for which `Directory.Exists` is true */
    directories: set<string>,
    /** `Directory.GetDirectories(path)`: the full paths of the subdirectories, in enumeration order */
    subdirectories: string -> seq<string>,
    /** `Path.GetFullPath(path)`: the normalised absolute path, or the exception's message */
    fullPath: string -> Result<string>,
    /** `Path.GetFullPath(path, basePath)`: `path` resolved against `basePath` and
        normalised, or the exception's message */
    fullPathFrom: (string, string) -> Result<string>,
    /** `cmd.exe /c <command>` started in the given working directory, run to completion */
    run: (string, string) -> ProcessOutcome)
}
