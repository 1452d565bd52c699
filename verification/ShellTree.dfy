/** Parse trees of the shell (sh.c:8-50); a string is a stretch of the command buffer. */
module ShellTree {
  const MAXARGS: int := 10

  /** A counted string of the buffer: argv[i] and eargv[i], or file and efile. */
  datatype Span = Span(from: int, to: int)

  datatype Redirection = Redirection(file: Span, mode: int, fd: int)

  datatype Cmd =
    | Exec(args: seq<Span>)
    | Redir(cmd: Cmd, r: Redirection)
    | Pipe(left: Cmd, right: Cmd)
    | List(left: Cmd, right: Cmd)
    | Back(cmd: Cmd)

  /** The C code stops with panic() on malformed input. */
  datatype Result = Ok(cmd: Cmd, pos: int) | Panic

  const O_RDONLY: int := 0
  const O_WRONLY_CREATE: int := 0x201

  /** parseredirs wraps the command in one redircmd after another. */
  function Wrap(c: Cmd, rs: seq<Redirection>): Cmd
  {
    if rs == [] then c else Redir(Wrap(c, rs[..|rs| - 1]), rs[|rs| - 1])
  }
}
