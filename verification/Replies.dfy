/** The texts of the server's replies, and what the client makes of them as process lists. */
module Replies {
  import opened CText
  import opened Decimal
  import opened Options
  import opened ProcessParts
  import opened ProcessText
  import opened Requests
  import opened Server
  import opened Tokens
  import opened Verbs
  import PS = PsReport

  /** Text without a line break. */
  type LineText = s: string | IsLine(s)

  /** What `%d` prints. */
  function Number(n: int): LineText {
    if n < 0 then "-" + Digits(-n) else Digits(n)
  }

  const EMPTY_COMMAND: LineText := "Error: Comando vacio."
  const USE: LineText := " Usa LIST, START <comando>, "
  const USE_STOP: LineText := "STOP <pid>, o EXIT"
  const UNKNOWN_COMMAND: LineText := "Error: Comando desconocido '"
  const UNQUOTE: LineText := "'."
  const FAREWELL: LineText := "Adios! Cerrando conexion..."

  const START_NEEDS_COMMAND: LineText := "Error: START requiere un comando."
  const START_EXAMPLE: LineText := "Ejemplo: START sleep 30"
  const TOO_LONG: LineText := "Error: Comando demasiado largo "
  const TOO_LONG_MAX: LineText := "(max 1024 caracteres)."
  const COMMAND_BLOCKED: LineText := "Error: Comando bloqueado por seguridad."
  const FORK_FAILED: LineText := "Error: fork() fallo: "
  const PROCESS_QUOTED: LineText := "Proceso '"
  const STARTED_WITH: LineText := "' iniciado con PID "
  const ENDED: LineText := "Error: El proceso termino "
  const AT_ONCE: LineText := "inmediatamente (codigo "
  const CODE_END: LineText := ")."
  const ODDLY: LineText := "inesperadamente."
  const CHECK_COMMAND: LineText := "Verifica que el comando '"
  const IS_VALID: LineText := "' sea valido."

  const STOP_NEEDS_PID: LineText := "Error: STOP requiere un PID."
  const STOP_EXAMPLE: LineText := "Ejemplo: STOP 1234"
  const NO_PID: LineText := "Error: PID no especificado."
  const PID_INVALID: LineText := "Error: PID invalido "
  const QUOTE: LineText := "'"
  const NOT_NUMBER: LineText := "'. Debe ser un numero."
  const NOT_POSITIVE: LineText := ". Debe ser mayor que 0."
  const CANNOT_STOP: LineText := "Error: No se puede detener "
  const INIT_PROCESS: LineText := "el proceso init (PID 1)."
  const THE_PROCESS: LineText := "Error: El proceso "
  const DOES_NOT_EXIST: LineText := " no existe."
  const NO_RIGHTS: LineText := "Error: Sin permisos "
  const TO_STOP: LineText := "para detener el proceso "
  const STOP: LineText := "."
  const NO_ACCESS: LineText := "Error: No se puede acceder "
  const TO_PROCESS: LineText := "al proceso "
  const COLON: LineText := ": "
  const PROCESS: LineText := "Proceso "
  const STOPPED_WELL: LineText := " detenido exitosamente."
  const STOP_FAILED: LineText := "Error al detener proceso "

  const USAGE_LIST: LineText := "  LIST/LISTAR - Ver procesos"
  const USAGE_START: LineText := "  START/INICIAR <cmd> - Crear proceso"
  const USAGE_STOP: LineText := "  STOP/MATAR <pid> - Detener proceso"
  const USAGE_EXIT: LineText := "  EXIT/SALIR - Desconectar"
  const USAGE: LineText := "Comandos disponibles:"

  /** The words that a reply repeats hold no line break. */
  predicate QuotesLines(r: Reply) {
    match r
    case UnknownCommand(word) => IsLine(word)
    case Started(command, _) => IsLine(command)
    case EndedAtOnce(command, _) => IsLine(command)
    case EndedOddly(command) => IsLine(command)
    case PidNotNumber(text) => IsLine(text)
    case _ => true
  }

  /** The pieces of the first line of a reply that is not a process report; `error` is the
      system's message for the call that failed. */
  function FirstLine(r: Reply, error: LineText): seq<LineText>
    requires QuotesLines(r)
  {
    match r
    case EmptyCommand => [EMPTY_COMMAND, USE, USE_STOP]
    case UnknownCommand(word) => [UNKNOWN_COMMAND, word, UNQUOTE]
    case Goodbye => [FAREWELL]
    case Report(_) => []
    case StartNeedsCommand => [START_NEEDS_COMMAND]
    case StartEmpty => [EMPTY_COMMAND]
    case CommandTooLong => [TOO_LONG, TOO_LONG_MAX]
    case CommandBlocked => [COMMAND_BLOCKED]
    case NoFork => [FORK_FAILED, error]
    case Started(command, pid) => [PROCESS_QUOTED, command, STARTED_WITH, Number(pid)]
    case EndedAtOnce(_, code) => [ENDED, AT_ONCE, Number(code), CODE_END]
    case EndedOddly(_) => [ENDED, ODDLY]
    case StopNeedsPid => [STOP_NEEDS_PID]
    case PidMissing => [NO_PID]
    case PidNotNumber(text) => [PID_INVALID, QUOTE, text, NOT_NUMBER]
    case PidNotPositive(value) => [PID_INVALID, Number(value), NOT_POSITIVE]
    case PidIsInit => [CANNOT_STOP, INIT_PROCESS]
    case NoProcess(pid) => [THE_PROCESS, Number(pid), DOES_NOT_EXIST]
    case NoPermission(pid) => [NO_RIGHTS, TO_STOP, Number(pid), STOP]
    case NotAccessible(pid) => [NO_ACCESS, TO_PROCESS, Number(pid), COLON, error]
    case Stopped(pid) => [PROCESS, Number(pid), STOPPED_WELL]
    case StopFailed(pid) => [STOP_FAILED, Number(pid), COLON, error]
  }

  /** The lines after the first. */
  function MoreLines(r: Reply): seq<string> {
    match r
    case UnknownCommand(_) => [USAGE, USAGE_LIST, USAGE_START, USAGE_STOP, USAGE_EXIT]
    case StartNeedsCommand => [START_EXAMPLE]
    case EndedAtOnce(command, _) => [CHECK_COMMAND + command + IS_VALID]
    case EndedOddly(command) => [CHECK_COMMAND + command + IS_VALID]
    case StopNeedsPid => [STOP_EXAMPLE]
    case _ => []
  }

  /** The lines that follow, whole. */
  lemma MoreLinesExact(command: string)
    ensures MoreLines(StartNeedsCommand) == ["Ejemplo: START sleep 30"]
    ensures MoreLines(StopNeedsPid) == ["Ejemplo: STOP 1234"]
    ensures MoreLines(EndedOddly(command)) == ["Verifica que el comando '" + command + "' sea valido."]
    ensures forall code :: MoreLines(EndedAtOnce(command, code)) == MoreLines(EndedOddly(command))
    ensures forall word :: |MoreLines(UnknownCommand(word))| == 5
  {
  }

  /** The bytes sent for a reply. */
  function ReplyText(r: Reply, error: LineText): string
    requires QuotesLines(r)
  {
    if r.Report? then r.text
    else Snprintf(BUFFER_SIZE, Framed([Concat(FirstLine(r, error))] + MoreLines(r)))
  }

  lemma ConcatThree(x: string, y: string, z: string)
    ensures Concat([x, y, z]) == x + y + z
  {
    assert [x, y, z][1..] == [y, z];
    ConcatTwo(y, z);
  }

  lemma ConcatFour(w: string, x: string, y: string, z: string)
    ensures Concat([w, x, y, z]) == w + x + y + z
  {
    assert [w, x, y, z][1..] == [x, y, z];
    ConcatThree(x, y, z);
  }

  /** The sentences that tell what became of a process, whole. */
  lemma WordingExact(pid: int, code: int, command: LineText, error: LineText)
    ensures Concat(FirstLine(Stopped(pid), error)) == "Proceso " + Number(pid) + " detenido exitosamente."
    ensures Concat(FirstLine(NoProcess(pid), error)) == "Error: El proceso " + Number(pid) + " no existe."
    ensures Concat(FirstLine(NoPermission(pid), error)) ==
            "Error: Sin permisos " + "para detener el proceso " + Number(pid) + "."
    ensures Concat(FirstLine(Started(command, pid), error)) ==
            "Proceso '" + command + "' iniciado con PID " + Number(pid)
    ensures Concat(FirstLine(EndedAtOnce(command, code), error)) ==
            "Error: El proceso termino " + "inmediatamente (codigo " + Number(code) + ")."
  {
    hide Number, Concat;
    ConcatThree("Proceso ", Number(pid), " detenido exitosamente.");
    ConcatThree("Error: El proceso ", Number(pid), " no existe.");
    ConcatFour("Error: Sin permisos ", "para detener el proceso ", Number(pid), ".");
    ConcatFour("Proceso '", command, "' iniciado con PID ", Number(pid));
    ConcatFour("Error: El proceso termino ", "inmediatamente (codigo ", Number(code), ").");
  }

  /** The sentences that tell what went wrong with a STOP, whole. */
  lemma WordingOfStopErrors(pid: int, value: int, text: LineText, error: LineText)
    ensures Concat(FirstLine(PidNotNumber(text), error)) ==
            "Error: PID invalido " + "'" + text + "'. Debe ser un numero."
    ensures Concat(FirstLine(PidNotPositive(value), error)) ==
            "Error: PID invalido " + Number(value) + ". Debe ser mayor que 0."
    ensures Concat(FirstLine(PidIsInit, error)) == "Error: No se puede detener " + "el proceso init (PID 1)."
    ensures Concat(FirstLine(StopFailed(pid), error)) ==
            "Error al detener proceso " + Number(pid) + ": " + error
  {
    hide Number, Concat;
    ConcatFour("Error: PID invalido ", "'", text, "'. Debe ser un numero.");
    ConcatThree("Error: PID invalido ", Number(value), ". Debe ser mayor que 0.");
    ConcatTwo("Error: No se puede detener ", "el proceso init (PID 1).");
    ConcatFour("Error al detener proceso ", Number(pid), ": ", error);
  }

  /** The sentences that tell what went wrong otherwise, whole. */
  lemma WordingOfErrors(text: LineText, error: LineText)
    ensures Concat(FirstLine(UnknownCommand(text), error)) == "Error: Comando desconocido '" + text + "'."
    ensures Concat(FirstLine(NoFork, error)) == "Error: fork() fallo: " + error
    ensures Concat(FirstLine(EndedOddly(text), error)) == "Error: El proceso termino " + "inesperadamente."
    ensures Concat(FirstLine(CommandTooLong, error)) == "Error: Comando demasiado largo " + "(max 1024 caracteres)."
  {
    hide Number, Concat;
    ConcatThree("Error: Comando desconocido '", text, "'.");
    ConcatTwo("Error: fork() fallo: ", error);
    ConcatTwo("Error: El proceso termino ", "inesperadamente.");
    ConcatTwo("Error: Comando demasiado largo ", "(max 1024 caracteres).");
  }

  lemma RequestLines(chunk: string)
    ensures var r := SplitRequest(chunk);
            && (r.cmd.Some? ==> IsLine(r.cmd.value)) && (r.arg.Some? ==> IsLine(r.arg.value))
  {
    hide SplitLine, CommandLine;
    SplitShape(CommandLine(chunk));
    CommandLineUnbroken(chunk);
    var r := SplitRequest(chunk);
    if r.cmd.Some? {
      assert forall i :: 0 <= i < |r.cmd.value| ==> r.cmd.value[i] in r.cmd.value;
    }
    if r.arg.Some? {
      assert forall i :: 0 <= i < |r.arg.value| ==> r.arg.value[i] in r.arg.value;
    }
  }

  lemma RespondQuotesLines(chunk: string, os: Os)
    ensures QuotesLines(Respond(chunk, os).reply)
  {
    hide SplitRequest, VerbOf, IsBlocked, AllDigits, Atoi, IsLine;
    RequestLines(chunk);
  }

  lemma {:induction false} ConcatIsLine(ss: seq<LineText>)
    ensures IsLine(Concat(ss))
  {
    if ss != [] {
      ConcatIsLine(ss[1..]);
    }
  }

  /** A line that begins with something else than a digit, indented or not, is no entry. */
  lemma ProseIsNoEntry(line: string, indent: nat)
    requires indent < |line| && forall i :: 0 <= i < indent ==> IsSpace(line[i])
    requires !IsSpace(line[indent]) && !IsDigit(line[indent])
    ensures LineEntry(line) == []
  {
    SpanIs(line, IsSpace, 0, indent);
    SpanIs(line, IsDigit, indent, indent);
  }

  lemma UsageIsProse()
    ensures LineEntry(USAGE) == LineEntry(USAGE_LIST) == LineEntry(USAGE_START) == []
    ensures LineEntry(USAGE_STOP) == LineEntry(USAGE_EXIT) == []
    ensures LineEntry(START_EXAMPLE) == LineEntry(STOP_EXAMPLE) == []
  {
    hide LineEntry;
    ProseIsNoEntry(USAGE, 0);
    ProseIsNoEntry(USAGE_LIST, 2);
    ProseIsNoEntry(USAGE_START, 2);
    ProseIsNoEntry(USAGE_STOP, 2);
    ProseIsNoEntry(USAGE_EXIT, 2);
    ProseIsNoEntry(START_EXAMPLE, 0);
    ProseIsNoEntry(STOP_EXAMPLE, 0);
  }

  lemma CheckIsProse(command: LineText)
    ensures IsLine(CHECK_COMMAND + command + IS_VALID) && LineEntry(CHECK_COMMAND + command + IS_VALID) == []
  {
    hide LineEntry;
    ProseIsNoEntry(CHECK_COMMAND + command + IS_VALID, 0);
  }

  lemma NothingInLines(ls: seq<string>)
    requires forall i :: 0 <= i < |ls| ==> LineEntry(ls[i]) == []
    ensures Collect(LineEntry, ls) == []
  {
  }

  lemma MoreLinesListNothing(r: Reply)
    requires QuotesLines(r)
    ensures AreLines(MoreLines(r)) && Collect(LineEntry, MoreLines(r)) == []
  {
    hide LineEntry, IsLine, Collect;
    UsageIsProse();
    if r.EndedAtOnce? || r.EndedOddly? {
      CheckIsProse(r.command);
    }
    NothingInLines(MoreLines(r));
  }

  /** The bytes sent in answer to a chunk. */
  function AnswerText(chunk: string, os: Os, error: LineText): string {
    RespondQuotesLines(chunk, os);
    ReplyText(Respond(chunk, os).reply, error)
  }

  /** No part of a reply other than a process report lists anything. */
  lemma ReplyListsNothing(r: Reply, error: LineText, a: nat, b: nat)
    requires !r.Report? && QuotesLines(r) && a <= b <= |ReplyText(r, error)|
    ensures ParseText(ReplyText(r, error)[a..b]) == []
  {
    hide ParseText, FirstLine, MoreLines, Framed, QuotesLines;
    var first, more := Concat(FirstLine(r, error)), MoreLines(r);
    ConcatIsLine(FirstLine(r, error));
    MoreLinesListNothing(r);
    var lines := [first] + more;
    assert lines[1..] == more;
    EntriesOfFramed(lines);
    PartEntries(Framed(lines), a, b);
    assert ReplyText(r, error)[a..b] == Framed(lines)[a..b];
  }

  /** A report that is not the output of `ps` lists nothing either. */
  lemma FailedReportListsNothing(a: nat, b: nat)
    requires a <= b <= |PS.PS_FAILED|
    ensures ParseText(PS.PS_FAILED[a..b]) == []
  {
    hide ParseText;
    var line: LineText := "Error: Failed to run ps command";
    assert PS.PS_FAILED == line + [NEWLINE] + "";
    EntriesOfFramed([line]);
    PartEntries(PS.PS_FAILED, a, b);
  }

  /** The reply is a process report exactly for LIST and its synonyms, in any letter case. */
  lemma ReportExact(chunk: string, os: Os)
    ensures Respond(chunk, os).reply.Report? <==>
            SplitRequest(chunk).cmd.Some? && IsListWord(Upper(SplitRequest(chunk).cmd.value))
  {
    hide SplitRequest, VerbOf, StopOutcome, StartOutcome;
    var r := SplitRequest(chunk);
    if r.cmd.Some? {
      VerbExact(r.cmd.value);
    }
    NeverReport(r.arg, os);
  }

  lemma NeverReport(arg: Option<string>, os: Os)
    ensures !StopOutcome(arg, os).reply.Report? && !StartOutcome(arg, os).reply.Report?
  {
    hide IsBlocked, AllDigits, Atoi;
  }

  /** Every answer has at least one byte, but that to LIST when `ps` prints nothing. */
  lemma NoBytesExact(chunk: string, os: Os, error: LineText)
    requires os.ps.Some? ==> NUL !in os.ps.value
    ensures AnswerText(chunk, os, error) == "" <==>
            && SplitRequest(chunk).cmd.Some? && IsListWord(Upper(SplitRequest(chunk).cmd.value))
            && os.ps == Some("")
  {
    hide SplitRequest, IsListWord, FirstLine, MoreLines, Concat, StopOutcome, StartOutcome, PS.Report;
    ReportExact(chunk, os);
    RespondQuotesLines(chunk, os);
    var reply := Respond(chunk, os).reply;
    if !reply.Report? {
      var lines := [Concat(FirstLine(reply, error))] + MoreLines(reply);
      assert Framed(lines) != "";
    } else if os.ps.Some? {
      EmptyReport(os.ps.value);
      NeverReport(SplitRequest(chunk).arg, os);
    }
  }

  lemma EmptyReport(ps: string)
    requires NUL !in ps
    ensures PS.Report(BUFFER_SIZE, "", ps) == "" <==> ps == ""
  {
    PS.ReportIsPrefix(BUFFER_SIZE, "", ps);
    assert "" + ps == ps;
  }
}
