/** Labels shown in the Status column for the debugger's process/thread states. */
module ThreadStatus {
  import opened Wrappers

  // The engine's process states (RzDebugPidState); each is one character.
  const ProcStop: char := 's'
  const ProcRun: char := 'r'
  const ProcSleep: char := 'S'
  const ProcZombie: char := 'z'
  const ProcDead: char := 'd'
  const ProcRaised: char := 'R'

  const KnownStatuses: set<char> := {ProcStop, ProcRun, ProcSleep, ProcZombie, ProcDead, ProcRaised}

  const UnknownStatusLabel: string := "Unknown status"

  /** The label of a status code; every code outside the six known ones degrades to
      "Unknown status", and every known code gets its own label, from which it can be
      read back. */
  function TranslateStatus(status: char): (shown: string)
    ensures shown == UnknownStatusLabel <==> status !in KnownStatuses
    ensures status in KnownStatuses ==> StatusOfLabel(shown) == Some(status)
    ensures status !in KnownStatuses ==> StatusOfLabel(shown) == None
  {
    if status == ProcStop then "Stopped"
    else if status == ProcRun then "Running"
    else if status == ProcSleep then "Sleeping"
    else if status == ProcZombie then "Zombie"
    else if status == ProcDead then "Dead"
    else if status == ProcRaised then "Raised event"
    else UnknownStatusLabel
  }

  /** The status code a label stands for, if it is the label of a known code. */
  function StatusOfLabel(name: string): Option<char>
  {
    if name == "Stopped" then Some(ProcStop)
    else if name == "Running" then Some(ProcRun)
    else if name == "Sleeping" then Some(ProcSleep)
    else if name == "Zombie" then Some(ProcZombie)
    else if name == "Dead" then Some(ProcDead)
    else if name == "Raised event" then Some(ProcRaised)
    else None
  }

  /** Two codes share a label exactly when they are the same code or both unknown, so the
      Status column tells the known states apart. */
  lemma SameLabelIff(a: char, b: char)
    ensures TranslateStatus(a) == TranslateStatus(b) <==>
              a == b || (a !in KnownStatuses && b !in KnownStatuses)
  {
  }

  /** The six labels the engine's states are shown with. */
  lemma KnownStatusLabels()
    ensures TranslateStatus(ProcStop) == "Stopped"
    ensures TranslateStatus(ProcRun) == "Running"
    ensures TranslateStatus(ProcSleep) == "Sleeping"
    ensures TranslateStatus(ProcZombie) == "Zombie"
    ensures TranslateStatus(ProcDead) == "Dead"
    ensures TranslateStatus(ProcRaised) == "Raised event"
  {
  }
}
