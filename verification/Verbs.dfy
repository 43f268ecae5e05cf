/** The server's command verbs and their synonyms. */
module Verbs {
  import opened CText
  import opened CBuffer

  datatype Verb = List | Start | Stop | Exit | Unknown

  const UPPER_SIZE: nat := 256
  const VERB_SIZE: nat := 64

  predicate IsListWord(u: string) {
    u in {"LIST", "LISTAR", "LS", "PS", "LISTA", "VER", "SHOW", "MOSTRAR", "PROCESOS", "PROCESSES"}
  }

  predicate IsStartWord(u: string) {
    u in {"START", "INICIAR", "RUN", "EJECUTAR", "LAUNCH", "LANZAR", "EXEC", "CORRER", "BEGIN", "EMPEZAR",
          "CREATE", "CREAR"}
  }

  predicate IsStopWord(u: string) {
    u in {"STOP", "DETENER", "KILL", "MATAR", "END", "TERMINAR", "FINISH", "FINALIZAR", "CANCEL", "CANCELAR",
          "HALT", "PARAR"}
  }

  predicate IsExitWord(u: string) {
    u in {"EXIT", "SALIR", "QUIT", "BYE", "ADIOS", "CLOSE", "CERRAR", "DISCONNECT", "DESCONECTAR"}
  }

  predicate IsSynonym(u: string) {
    IsListWord(u) || IsStartWord(u) || IsStopWord(u) || IsExitWord(u)
  }

  /** The canonical verb of an upper-case word, or the word itself. */
  function Canonical(u: string): string {
    if IsListWord(u) then "LIST"
    else if IsStartWord(u) then "START"
    else if IsStopWord(u) then "STOP"
    else if IsExitWord(u) then "EXIT"
    else u
  }

  /** What `normalize_command` stores for a word, with both of its buffers' limits. */
  function Normalized(word: string): string {
    First(Canonical(First(Upper(word), UPPER_SIZE - 1)), VERB_SIZE - 1)
  }

  /** The branch of the dispatcher that a word reaches. */
  function VerbOf(word: string): Verb {
    var n := Normalized(word);
    if n == "LIST" then List
    else if n == "START" then Start
    else if n == "STOP" then Stop
    else if n == "EXIT" then Exit
    else Unknown
  }

  // The comparisons with each synonym.

  method DetectList(word: string) returns (found: bool)
    ensures found <==> IsListWord(word)
  {
    found := word == "LIST" || word == "LISTAR" || word == "LS" || word == "PS" || word == "LISTA" || word == "VER"
            || word == "SHOW" || word == "MOSTRAR" || word == "PROCESOS" || word == "PROCESSES";
  }

  method DetectStart(word: string) returns (found: bool)
    ensures found <==> IsStartWord(word)
  {
    found := word == "START" || word == "INICIAR" || word == "RUN" || word == "EJECUTAR" || word == "LAUNCH"
            || word == "LANZAR" || word == "EXEC" || word == "CORRER" || word == "BEGIN" || word == "EMPEZAR"
            || word == "CREATE" || word == "CREAR";
  }

  method DetectStop(word: string) returns (found: bool)
    ensures found <==> IsStopWord(word)
  {
    found := word == "STOP" || word == "DETENER" || word == "KILL" || word == "MATAR" || word == "END"
            || word == "TERMINAR" || word == "FINISH" || word == "FINALIZAR" || word == "CANCEL"
            || word == "CANCELAR" || word == "HALT" || word == "PARAR";
  }

  method DetectExit(word: string) returns (found: bool)
    ensures found <==> IsExitWord(word)
  {
    found := word == "EXIT" || word == "SALIR" || word == "QUIT" || word == "BYE" || word == "ADIOS"
            || word == "CLOSE" || word == "CERRAR" || word == "DISCONNECT" || word == "DESCONECTAR";
  }

  /** The first of the four tables that holds the word decides. */
  method Synonym(word: string) returns (verb: string)
    ensures verb == Canonical(word)
  {
    hide IsListWord, IsStartWord, IsStopWord, IsExitWord;
    var list := DetectList(word);
    if list {
      return "LIST";
    }
    var start := DetectStart(word);
    if start {
      return "START";
    }
    var stop := DetectStop(word);
    if stop {
      return "STOP";
    }
    var exit := DetectExit(word);
    return if exit then "EXIT" else word;
  }

  method NormalizeCommand(cmd: string, normalized: array<char>)
    requires NUL !in cmd && normalized.Length == VERB_SIZE
    modifies normalized
    ensures NUL in normalized[..] && CStr(normalized[..]) == Normalized(cmd)
  {
    hide Canonical;
    var upper := new char[UPPER_SIZE];
    var i := 0;
    while i < |cmd| && i < UPPER_SIZE - 1
      invariant i <= |cmd| && i <= UPPER_SIZE - 1
      invariant forall k :: 0 <= k < i ==> upper[k] == ToUpper(cmd[k])
    {
      upper[i] := ToUpper(cmd[i]);
      i := i + 1;
    }
    var word := upper[..i];
    assert word == First(Upper(cmd), UPPER_SIZE - 1);
    var verb := Synonym(word);
    NoNul(cmd);
    Strcpy(normalized, First(verb, VERB_SIZE - 1));
  }

  lemma NoNul(cmd: string)
    requires NUL !in cmd
    ensures NUL !in Normalized(cmd)
  {
    forall i | 0 <= i < |cmd| ensures Upper(cmd)[i] != NUL {
      assert cmd[i] in cmd;
    }
  }

  // ----- The synonym sets -----

  lemma SynonymLength(u: string)
    requires IsSynonym(u)
    ensures 0 < |u| <= 11
  {
  }

  /** The cut to 255 bytes neither makes a synonym nor loses one. */
  lemma CutKeepsWord(u: string)
    ensures Canonical(First(u, UPPER_SIZE - 1)) == if |u| < UPPER_SIZE then Canonical(u) else First(u, UPPER_SIZE - 1)
    ensures |u| >= UPPER_SIZE ==> !IsSynonym(u)
  {
    var c := First(u, UPPER_SIZE - 1);
    if |u| >= UPPER_SIZE {
      if IsSynonym(c) {
        SynonymLength(c);
      }
      if IsSynonym(u) {
        SynonymLength(u);
      }
    }
  }

  /** For words of any length, the verb is the one synonym set that holds the
      upper-cased word; so no word is in two of the sets, and neither buffer's
      limit makes or loses a match. */
  lemma VerbExact(word: string)
    ensures VerbOf(word) == List <==> IsListWord(Upper(word))
    ensures VerbOf(word) == Start <==> IsStartWord(Upper(word))
    ensures VerbOf(word) == Stop <==> IsStopWord(Upper(word))
    ensures VerbOf(word) == Exit <==> IsExitWord(Upper(word))
    ensures VerbOf(word) == Unknown <==> !IsSynonym(Upper(word))
  {
    CutKeepsWord(Upper(word));
    CanonicalShape(First(Upper(word), UPPER_SIZE - 1));
  }

  lemma CanonicalShape(u: string)
    ensures var n := First(Canonical(u), VERB_SIZE - 1);
            && (n == "LIST" <==> IsListWord(u)) && (n == "START" <==> IsStartWord(u))
            && (n == "STOP" <==> IsStopWord(u)) && (n == "EXIT" <==> IsExitWord(u))
    ensures IsSynonym(u) ==> IsSynonym(Canonical(u)) && Canonical(Canonical(u)) == Canonical(u)
  {
    if IsSynonym(u) {
      SynonymLength(u);
    }
  }

  /** What is stored: the verb's canonical word, or the first 63 characters of an unknown
      word, upper-cased. */
  lemma NormalizedExact(word: string)
    ensures VerbOf(word) == List ==> Normalized(word) == "LIST"
    ensures VerbOf(word) == Start ==> Normalized(word) == "START"
    ensures VerbOf(word) == Stop ==> Normalized(word) == "STOP"
    ensures VerbOf(word) == Exit ==> Normalized(word) == "EXIT"
    ensures VerbOf(word) == Unknown ==> Normalized(word) == First(Upper(word), 63)
  {
    hide IsListWord, IsStartWord, IsStopWord, IsExitWord;
    VerbExact(word);
    CutKeepsWord(Upper(word));
  }

  /** Normalizing what has been normalized changes nothing. */
  lemma NormalizedTwice(word: string)
    ensures Normalized(Normalized(word)) == Normalized(word)
  {
    var u := First(Upper(word), UPPER_SIZE - 1);
    CanonicalShape(u);
    var n := Normalized(word);
    if IsSynonym(u) {
      SynonymLength(Canonical(u));
      assert n == Canonical(u);
      assert Upper(n) == n;
    } else {
      assert n == First(u, VERB_SIZE - 1);
      assert forall i :: 0 <= i < |n| ==> n[i] == ToUpper(word[i]);
      UpperFixed(n);
      if |u| > VERB_SIZE - 1 && IsSynonym(n) {
        SynonymLength(n);
      }
    }
  }

  /** The table of the synonyms. */
  predicate Names(v: Verb, u: string) {
    match v
    case List => IsListWord(u)
    case Start => IsStartWord(u)
    case Stop => IsStopWord(u)
    case Exit => IsExitWord(u)
    case Unknown => false
  }

  lemma ListWordsAreUpper(u: string)
    requires IsListWord(u)
    ensures Upper(u) == u
  {
  }

  lemma StartWordsAreUpper(u: string)
    requires IsStartWord(u)
    ensures Upper(u) == u
  {
  }

  lemma StopWordsAreUpper(u: string)
    requires IsStopWord(u)
    ensures Upper(u) == u
  {
  }

  lemma ExitWordsAreUpper(u: string)
    requires IsExitWord(u)
    ensures Upper(u) == u
  {
  }

  lemma NamesAreUpper(v: Verb, u: string)
    requires Names(v, u)
    ensures Upper(u) == u
  {
    hide IsListWord, IsStartWord, IsStopWord, IsExitWord;
    match v
    case List => ListWordsAreUpper(u);
    case Start => StartWordsAreUpper(u);
    case Stop => StopWordsAreUpper(u);
    case Exit => ExitWordsAreUpper(u);
  }

  /** A word takes a verb's branch exactly when it agrees with one of the verb's synonyms letter
      by letter, whether small or capital. */
  lemma VerbByLetters(word: string, v: Verb)
    requires v != Unknown
    ensures VerbOf(word) == v <==> exists u :: Names(v, u) && SameLetters(word, u)
  {
    hide VerbOf, IsListWord, IsStartWord, IsStopWord, IsExitWord, SameLetters;
    VerbExact(word);
    if VerbOf(word) == v {
      UpperFixed(word);
      UpperExact(word, Upper(word));
      assert Names(v, Upper(word)) && SameLetters(word, Upper(word));
    }
    forall u | Names(v, u) && SameLetters(word, u) ensures VerbOf(word) == v {
      NamesAreUpper(v, u);
      UpperExact(word, u);
    }
  }

  /** Words that agree letter by letter are normalized alike. */
  lemma NormalizedIgnoresCase(x: string, y: string)
    requires SameLetters(x, y)
    ensures Normalized(x) == Normalized(y) && VerbOf(x) == VerbOf(y)
  {
    hide SameLetters;
    UpperExact(x, y);
  }
}
