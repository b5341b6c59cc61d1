/**
 What both clients do with a batch the display sent: which statement makes a query,
 which object a statement is addressed to, and what either is refused for.
 */
module Hosting {
  import opened Text
  import opened Syntax
  import opened Query
  import opened Reader

  /** One sequence a display is reading. It never changes: the id is the generation. */
  datatype HostedQuery = HostedQuery(id: nat, source: string, descriptor: Descriptor)

  /** Why a batch is refused. */
  datatype Fault =
    | ExpectedType
    | HostsNoSuch(name: string)
    | BadQuery(why: Refusal)
    | ServesNoSuch(name: string)
    | NoQueryOfMine(verb: string, id: nat)
    | AskedWhenMade
    | DoesNotChange

  /** A job to do once the batch has been answered. */
  datatype Job =
    | FillJob(q: HostedQuery, asked: Asked)
    | DropJob(q: HostedQuery)
    | OtherJob(q: HostedQuery, stmt: Stmt)

  /** What a `new` statement says: a query's descriptor, or a fault. */
  datatype Opening = Opened(d: Descriptor) | Faulty(why: Fault)

  function OpeningOf(st: Stmt, sources: set<string>): Opening {
    if st.args == [] || st.args[0].value.Some? || st.args[0].flag != Asserted then Faulty(ExpectedType)
    else if st.args[0].name != "query" then Faulty(HostsNoSuch(st.args[0].name))
    else match ReadDescriptor(st.args[1..])
      case Refused(why) => Faulty(BadQuery(why))
      case Ok(d) => if d.source in sources then Opened(d) else Faulty(ServesNoSuch(d.source))
  }

  /** The bare id a statement is addressed to, where it opens with one. */
  function BareId(st: Stmt): Option<nat> {
    if st.args != [] && st.args[0].name == "" && st.args[0].value.Some?
       && st.args[0].value.value.Int? && st.args[0].value.value.i >= 0
    then Some(st.args[0].value.value.i) else None
  }

  /** The key a statement is addressed by, where it opens with a bare word. */
  function BareKey(st: Stmt): Option<string> {
    if st.args != [] && st.args[0].value.None? && st.args[0].flag == Asserted then Some(st.args[0].name) else None
  }
}
