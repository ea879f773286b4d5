/**
 * The typed events the scanner produces, one per recognised log line. The
 * common part is the resolved timestamp, the host name and the stripped raw
 * line; the kind-specific part holds the captured fields.
 */
module Events {
  import opened Wrappers

  datatype Detail =
    | Accepted(user: string, ip: string, port: string)
    | Failed(user: string, ip: string, port: string)
    | UserCreatedDetail(user: string, uid: Option<string>, gid: Option<string>,
                        home: Option<string>, shell: Option<string>)
    | UserCreated(user: string)
    | GroupCreated(group: string, gid: Option<string>)
    | PasswordChanged(user: string)
    | AddedToGroup(user: string, group: string)
    | SudoCommand(user: string, cmd: string)

  datatype Event = Event(ts: int, host: string, raw: string, detail: Detail)

  /** The position of a kind in the order in which the line shapes are tried. */
  function KindIndex(d: Detail): (k: nat)
    ensures k < 8
  {
    match d
    case Accepted(_, _, _) => 0
    case Failed(_, _, _) => 1
    case UserCreatedDetail(_, _, _, _, _) => 2
    case UserCreated(_) => 3
    case GroupCreated(_, _) => 4
    case PasswordChanged(_) => 5
    case AddedToGroup(_, _) => 6
    case SudoCommand(_, _) => 7
  }

  lemma KindIndexValues(d: Detail)
    ensures d.Accepted? ==> KindIndex(d) == 0
    ensures d.Failed? ==> KindIndex(d) == 1
    ensures d.UserCreatedDetail? ==> KindIndex(d) == 2
    ensures d.UserCreated? ==> KindIndex(d) == 3
    ensures d.GroupCreated? ==> KindIndex(d) == 4
    ensures d.PasswordChanged? ==> KindIndex(d) == 5
    ensures d.AddedToGroup? ==> KindIndex(d) == 6
    ensures d.SudoCommand? ==> KindIndex(d) == 7
  {
  }

  predicate IsLogin(e: Event)
  {
    e.detail.Accepted? || e.detail.Failed?
  }
}
