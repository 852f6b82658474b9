/**
  * The records of frontend/models.py as far as the application logic reads
  * and writes them: the MAC-address validator, the derived states of
  * programs and filesystems, and the in-place updates (`reset`,
  * `set_last_started`). Database queries are replaced by the rows they
  * return, passed in as sequences; `save()` is the assignment itself.
  */
module Models {
  import opened Wrappers
  import opened Text
  import Shlex

  /* ---------------- validate_mac_address ---------------- */

  /** The `code` of the `ValidationError`: `invalid_mac_few` or `invalid_mac_sym`. */
  datatype MacError = InvalidMacFew | InvalidMacSym

  /** The nested `ishex`: an ASCII letter A-F or a-f (digits are checked separately, by `str.isdigit`). */
  predicate IsHex(c: char) {
    'A' <= c <= 'F' || 'a' <= c <= 'f'
  }

  /** A character passes the inner test: hex or digit, in a part of exactly two characters. */
  predicate MacCharOk(c: char, partLength: nat) {
    (IsHex(c) || StrIsDigit(c)) && partLength == 2
  }

  predicate MacPartOk(part: string) {
    forall k | 0 <= k < |part| :: MacCharOk(part[k], |part|)
  }

  /** What the validator accepts: six `:`-separated parts, every character of which passes. */
  predicate MacAccepted(s: string) {
    var parts := Split(s, ':');
    |parts| == 6 && forall q | 0 <= q < 6 :: MacPartOk(parts[q])
  }

  /** `validate_mac_address`: `None` when no `ValidationError` is raised. */
  method ValidateMacAddress(macAddr: string) returns (err: Option<MacError>)
    ensures err.None? <==> MacAccepted(macAddr)
    ensures err == Some(InvalidMacFew) <==> |Split(macAddr, ':')| != 6
  {
    var parts := Split(macAddr, ':');
    if |parts| == 6 {
      var p := 0;
      while p < |parts|
        invariant 0 <= p <= |parts|
        invariant forall q | 0 <= q < p :: MacPartOk(parts[q])
      {
        var part := parts[p];
        var k := 0;
        while k < |part|
          invariant 0 <= k <= |part|
          invariant forall j | 0 <= j < k :: MacCharOk(part[j], |part|)
        {
          if (!IsHex(part[k]) && !StrIsDigit(part[k])) || |part| != 2 {
            return Some(InvalidMacSym);
          }
          k := k + 1;
        }
        p := p + 1;
      }
      return None;
    } else {
      return Some(InvalidMacFew);
    }
  }

  /** An address whose first part starts with a character that is neither hex nor a digit is refused. */
  lemma FirstCharRejected(s: string)
    requires var parts := Split(s, ':'); parts[0] != [] && !IsHex(parts[0][0]) && !StrIsDigit(parts[0][0])
    ensures !MacAccepted(s)
  {
    var part := Split(s, ':')[0];
    assert !MacCharOk(part[0], |part|);
  }

  /** Acceptance part by part: a part is either empty or two characters that are hex letters or `str.isdigit` digits; an empty part is let through. */
  lemma MacAcceptedParts(s: string)
    ensures MacAccepted(s) <==>
      var parts := Split(s, ':');
      |parts| == 6 && forall q | 0 <= q < 6 ::
        parts[q] == [] || (|parts[q]| == 2 && (IsHex(parts[q][0]) || StrIsDigit(parts[q][0]))
                                           && (IsHex(parts[q][1]) || StrIsDigit(parts[q][1])))
  {
    var parts := Split(s, ':');
    if |parts| == 6 {
      forall q | 0 <= q < 6
        ensures MacPartOk(parts[q]) <==>
          parts[q] == [] || (|parts[q]| == 2 && (IsHex(parts[q][0]) || StrIsDigit(parts[q][0]))
                                             && (IsHex(parts[q][1]) || StrIsDigit(parts[q][1])))
      {
        if MacPartOk(parts[q]) && parts[q] != [] {
          assert MacCharOk(parts[q][0], |parts[q]|);
        }
      }
    }
  }

  /** Two superscript twos (U+00B2): `str.isdigit` accepts each, `ishex` and the ASCII digits do not. */
  const SuperscriptPart: string := "\U{B2}\U{B2}"

  lemma SuperscriptPartOk()
    ensures MacPartOk(SuperscriptPart)
    ensures !IsHex(SuperscriptPart[0]) && !IsDigit(SuperscriptPart[0])
  {
    assert StrIsDigit('\U{B2}');
  }

  /**
    * `str.isdigit` is wider than the ASCII digits: six parts of two
    * superscript twos pass the validator, though no part is hexadecimal.
    */
  lemma SuperscriptMacAccepted()
    ensures MacAccepted(Join(seq(6, _ => SuperscriptPart), ':'))
  {
    var parts := seq(6, _ => SuperscriptPart);
    SuperscriptPartOk();
    assert ':' !in SuperscriptPart;
    SplitJoin(parts, ':');
  }

  /* ---------------- validate_argument_list ---------------- */

  /** The message of the `ValidationError` raised for an argument string `shlex.split` refuses. */
  const InvalidArgumentList: string := "Enter a valid argument list."

  /** `validate_argument_list`: `None` when `shlex.split` accepts the string. */
  function ValidateArgumentList(args: string): (err: Option<string>)
    ensures err.None? <==> Shlex.Split(args).Ok?
    ensures err.Some? ==> err.value == InvalidArgumentList
  {
    match Shlex.Split(args)
    case Ok(_) => None
    case Err(_) => Some(InvalidArgumentList)
  }

  /**
    * Any words, quoted and joined by spaces, make a valid argument list;
    * a plain word followed by an unclosed quote or by a lone trailing
    * backslash does not.
    */
  lemma ArgumentListValidity(words: seq<string>, w: string, q: char, text: string)
    requires forall k | 0 <= k < |w| :: Shlex.IsPlain(w[k])
    requires q == '\'' || q == '"'
    requires q !in text && '\\' !in text
    ensures ValidateArgumentList(Join(Shlex.QuoteAll(words), ' ')).None?
    ensures ValidateArgumentList(w + [q] + text) == Some(InvalidArgumentList)
    ensures ValidateArgumentList(w + "\\") == Some(InvalidArgumentList)
  {
    Shlex.SplitQuotedWords(words);
    Shlex.UnclosedQuote(w, q, text);
    Shlex.TrailingBackslash(w);
  }

  /* ---------------- Program and ProgramStatus ---------------- */

  /** A `ProgramStatus` row: the return `code` ('' while none), the command uuid and two flags. */
  datatype ProgramStatus = ProgramStatus(code: string, commandUuid: string, running: bool, timeouted: bool)

  /**
    * A `Program` row with its one-to-one `programstatus` (None when the
    * related row does not exist, where the ORM raises `DoesNotExist`).
    * `slave` is the id of the slave; `startTime` defaults to -1.
    */
  datatype Program = Program(
    id: int, name: string, path: string, arguments: string, slave: int,
    startTime: int, status: Option<ProgramStatus>)

  predicate IsRunning(p: Program) {
    p.status.Some? && p.status.value.running
  }

  predicate IsTimeouted(p: Program) {
    p.status.Some? && p.status.value.timeouted
  }

  predicate IsExecuted(p: Program) {
    !IsRunning(p) && p.status.Some? && p.status.value.code != ""
  }

  predicate IsError(p: Program) {
    IsExecuted(p) && p.status.value.code != "0"
  }

  predicate IsSuccessful(p: Program) {
    IsExecuted(p) && p.status.value.code == "0"
  }

  /** `Program.data_state`, with the priority running > error > success > unknown. */
  function ProgramDataState(p: Program): (r: string)
    ensures r == "running" <==> IsRunning(p)
    ensures r == "error" <==> !IsRunning(p) && IsError(p)
    ensures r == "success" <==> IsSuccessful(p)
    ensures r == "unknown" <==> !IsRunning(p) && !IsExecuted(p)
  {
    if IsRunning(p) then "running"
    else if IsError(p) then "error"
    else if IsExecuted(p) then "success"
    else "unknown"
  }

  /** Without a status row every predicate is false and the state is "unknown"; with one, running and timeout mirror it. */
  lemma ProgramWithoutStatus(p: Program)
    ensures p.status.None? ==>
      !IsRunning(p) && !IsTimeouted(p) && !IsExecuted(p) && !IsError(p) && !IsSuccessful(p)
      && ProgramDataState(p) == "unknown"
    ensures p.status.Some? ==>
      (IsRunning(p) <==> p.status.value.running) && (IsTimeouted(p) <==> p.status.value.timeouted)
  {
  }

  /** Error and success split the executed programs: never both, and one of them exactly when executed. */
  lemma ErrorSuccessPartition(p: Program)
    ensures IsExecuted(p) <==> p.status.Some? && !p.status.value.running && p.status.value.code != ""
    ensures !(IsError(p) && IsSuccessful(p))
    ensures IsError(p) || IsSuccessful(p) <==> IsExecuted(p)
  {
  }

  /* ---------------- Filesystem ---------------- */

  class Filesystem {
    const id: int
    // persistent fields
    var name: string
    var slave: int
    var sourcePath: string
    var sourceType: string
    var destinationPath: string
    var destinationType: string
    var hashValue: string
    // state fields
    var commandUuid: Option<string>
    var errorCode: string

    /** A new row with the model defaults: types 'file', empty hash, no command, no error. */
    constructor (id: int, name: string, slave: int, sourcePath: string, destinationPath: string)
      ensures this.id == id && this.name == name && this.slave == slave
      ensures this.sourcePath == sourcePath && this.destinationPath == destinationPath
      ensures sourceType == "file" && destinationType == "file" && hashValue == ""
      ensures commandUuid.None? && errorCode == ""
    {
      this.id := id;
      this.name := name;
      this.slave := slave;
      this.sourcePath := sourcePath;
      this.sourceType := "file";
      this.destinationPath := destinationPath;
      this.destinationType := "file";
      this.hashValue := "";
      this.commandUuid := None;
      this.errorCode := "";
    }

    /** `is_moved`: a hash is stored (the column is not nullable, so the `None` test never fires). */
    predicate IsMoved()
      reads this
    {
      hashValue != ""
    }

    predicate IsError()
      reads this
    {
      errorCode != ""
    }

    /** `data_state`: one of "error", "moved", "restored". */
    function DataState(): (state: string)
      reads this
      ensures state == "error" <==> IsError()
      ensures state == "moved" <==> !IsError() && IsMoved()
      ensures state == "restored" <==> !IsError() && !IsMoved()
    {
      if IsError() then "error" else if IsMoved() then "moved" else "restored"
    }

    /** `reset`: only the state fields go back to their defaults. */
    method Reset()
      modifies this
      ensures commandUuid.None? && errorCode == ""
      ensures name == old(name) && slave == old(slave) && hashValue == old(hashValue)
      ensures sourcePath == old(sourcePath) && sourceType == old(sourceType)
      ensures destinationPath == old(destinationPath) && destinationType == old(destinationType)
    {
      commandUuid := None;
      errorCode := "";
    }
  }

  /* ---------------- Slave ---------------- */

  class Slave {
    const id: int
    // persistent fields
    var name: string
    var ipAddress: string
    var macAddress: string
    // non persistent fields
    var commandUuid: Option<string>
    var online: bool

    constructor (id: int, name: string, ipAddress: string, macAddress: string)
      ensures this.id == id && this.name == name && this.ipAddress == ipAddress && this.macAddress == macAddress
      ensures commandUuid.None? && !online
    {
      this.id := id;
      this.name := name;
      this.ipAddress := ipAddress;
      this.macAddress := macAddress;
      this.commandUuid := None;
      this.online := false;
    }

    /** `reset`: no command, offline; name and addresses stay. */
    method Reset()
      modifies this
      ensures commandUuid.None? && !online
      ensures name == old(name) && ipAddress == old(ipAddress) && macAddress == old(macAddress)
    {
      commandUuid := None;
      online := false;
    }

    /**
      * `has_error` over the slave's programs and filesystems (the two related
      * sets, in the order the ORM yields them): true when any of them has an error.
      */
    method HasError(programs: seq<Program>, filesystems: seq<Filesystem>) returns (b: bool)
      ensures b <==> ((exists k | 0 <= k < |programs| :: IsError(programs[k]))
                   || (exists k | 0 <= k < |filesystems| :: filesystems[k].IsError()))
    {
      for k := 0 to |programs|
        invariant forall j | 0 <= j < k :: !IsError(programs[j])
      {
        if IsError(programs[k]) {
          return true;
        }
      }
      for k := 0 to |filesystems|
        invariant forall j | 0 <= j < k :: !filesystems[j].IsError()
      {
        if filesystems[k].IsError() {
          return true;
        }
      }
      return false;
    }
  }

  /* ---------------- Script ---------------- */

  class Script {
    const id: int
    // persistent fields
    var name: string
    var lastRan: bool
    // non persistent fields
    var isInitialized: bool
    var isRunning: bool
    var errorCode: string
    var currentIndex: int

    constructor (id: int, name: string)
      ensures this.id == id && this.name == name && !lastRan
      ensures !isInitialized && !isRunning && errorCode == "" && currentIndex == -1
    {
      this.id := id;
      this.name := name;
      this.lastRan := false;
      this.isInitialized := false;
      this.isRunning := false;
      this.errorCode := "";
      this.currentIndex := -1;
    }

    /** `reset`: the scheduler fields go back to their defaults; name and `last_ran` stay. */
    method Reset()
      modifies this
      ensures !isInitialized && !isRunning && errorCode == "" && currentIndex == -1
      ensures name == old(name) && lastRan == old(lastRan)
    {
      isInitialized := false;
      isRunning := false;
      errorCode := "";
      currentIndex := -1;
    }

    /**
      * `set_last_started(id)` over the whole table: clear `last_ran` on
      * every row, then set it on the rows with that id.
      */
    static method SetLastStarted(scripts: seq<Script>, id: int)
      modifies scripts
      ensures forall s | s in scripts :: s.lastRan <==> s.id == id
      ensures forall s | s in scripts ::
        s.name == old(s.name) && s.isInitialized == old(s.isInitialized) && s.isRunning == old(s.isRunning)
        && s.errorCode == old(s.errorCode) && s.currentIndex == old(s.currentIndex)
    {
      for k := 0 to |scripts|
        invariant forall s | s in scripts[..k] :: !s.lastRan
        invariant forall s | s in scripts ::
          s.name == old(s.name) && s.isInitialized == old(s.isInitialized) && s.isRunning == old(s.isRunning)
          && s.errorCode == old(s.errorCode) && s.currentIndex == old(s.currentIndex)
      {
        scripts[k].lastRan := false;
      }
      for k := 0 to |scripts|
        invariant forall s | s in scripts :: s.lastRan ==> s.id == id
        invariant forall s | s in scripts[..k] :: s.id == id ==> s.lastRan
        invariant forall s | s in scripts ::
          s.name == old(s.name) && s.isInitialized == old(s.isInitialized) && s.isRunning == old(s.isRunning)
          && s.errorCode == old(s.errorCode) && s.currentIndex == old(s.currentIndex)
      {
        if scripts[k].id == id {
          scripts[k].lastRan := true;
        }
      }
    }

    /**
      * `Script.objects.filter(id=id).update(...)` as the scheduler uses it:
      * the given fields are written on the rows with that id, and no other
      * row changes.
      */
    static method UpdateRunState(scripts: seq<Script>, id: int, isRunning: bool, errorCode: string)
      modifies scripts
      ensures forall s | s in scripts && s.id == id :: s.isRunning == isRunning && s.errorCode == errorCode
      ensures forall s | s in scripts && s.id != id :: s.isRunning == old(s.isRunning) && s.errorCode == old(s.errorCode)
      ensures forall s | s in scripts ::
        s.name == old(s.name) && s.lastRan == old(s.lastRan)
        && s.isInitialized == old(s.isInitialized) && s.currentIndex == old(s.currentIndex)
    {
      for k := 0 to |scripts|
        invariant forall s | s in scripts[..k] && s.id == id :: s.isRunning == isRunning && s.errorCode == errorCode
        invariant forall s | s in scripts && s.id != id :: s.isRunning == old(s.isRunning) && s.errorCode == old(s.errorCode)
        invariant forall s | s in scripts ::
          s.name == old(s.name) && s.lastRan == old(s.lastRan)
          && s.isInitialized == old(s.isInitialized) && s.currentIndex == old(s.currentIndex)
      {
        if scripts[k].id == id {
          scripts[k].isRunning := isRunning;
          scripts[k].errorCode := errorCode;
        }
      }
    }

    /** The scheduler's `update(current_index=...)`, optionally also marking the script running and initialized. */
    static method UpdateIndex(scripts: seq<Script>, id: int, index: int, starting: bool)
      modifies scripts
      ensures forall s | s in scripts && s.id == id ::
        s.currentIndex == index && (starting ==> s.isRunning && s.isInitialized)
        && (!starting ==> s.isRunning == old(s.isRunning) && s.isInitialized == old(s.isInitialized))
      ensures forall s | s in scripts && s.id != id ::
        s.currentIndex == old(s.currentIndex) && s.isRunning == old(s.isRunning) && s.isInitialized == old(s.isInitialized)
      ensures forall s | s in scripts ::
        s.name == old(s.name) && s.lastRan == old(s.lastRan) && s.errorCode == old(s.errorCode)
    {
      for k := 0 to |scripts|
        invariant forall s | s in scripts[..k] && s.id == id ::
          s.currentIndex == index && (starting ==> s.isRunning && s.isInitialized)
        invariant forall s | s in scripts && (s.id != id || !starting) ::
          s.isRunning == old(s.isRunning) && s.isInitialized == old(s.isInitialized)
        invariant forall s | s in scripts && s.id != id :: s.currentIndex == old(s.currentIndex)
        invariant forall s | s in scripts ::
          s.name == old(s.name) && s.lastRan == old(s.lastRan) && s.errorCode == old(s.errorCode)
      {
        if scripts[k].id == id {
          scripts[k].currentIndex := index;
          if starting {
            scripts[k].isRunning := true;
            scripts[k].isInitialized := true;
          }
        }
      }
    }
  }
}
