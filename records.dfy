/** The rows of the remote tables the closing core reads and writes, and the
    read-only lookups it makes on the `Usuario` and `Frentista` tables. Money
    columns hold integer cents; a column that may be null is an `Option`. */
module Records {
  import opened Wrappers
  import opened Query

  /** A signed-in identity of the authentication service (its uuid and e-mail). */
  datatype AuthUser = AuthUser(id: string, email: Option<string>)

  /** A `Usuario` profile row. */
  datatype Usuario = Usuario(id: int, email: string, role: string)

  /** A `Frentista` (operator) row; `userId` links it to an authenticated identity. */
  datatype Frentista = Frentista(id: int, userId: Option<string>, ativo: bool, postoId: int)

  /** A `Fechamento` row: the closing envelope of one date, shift and station. */
  datatype Envelope = Envelope(
    id: nat,
    data: string,
    turnoId: int,
    postoId: Option<int>,
    usuarioId: Option<int>,
    status: string,
    totalRecebido: Option<int>,
    totalVendas: Option<int>,
    diferenca: Option<int>,
    observacoes: Option<string>)

  /** A `FechamentoFrentista` row: one operator's line in an envelope. */
  datatype Line = Line(
    id: nat,
    fechamentoId: nat,
    frentistaId: int,
    valorCartao: Option<int>,
    debito: Option<int>,
    credito: Option<int>,
    nota: Option<int>,
    pix: Option<int>,
    dinheiro: Option<int>,
    moedas: Option<int>,
    valorConferido: Option<int>,
    encerrante: Option<int>,
    diferencaCalculada: Option<int>,
    observacoes: Option<string>,
    postoId: Option<int>)

  /** A `NotaPrazo` row: a deferred sale to a client, recorded with a closing. */
  datatype Note = Note(
    clienteId: int,
    frentistaId: int,
    data: string,
    valor: int,
    postoId: int,
    fechamentoId: nat,
    criadoEm: string)

  /** The read-only tables: user profiles and operators. */
  datatype Directory = Directory(usuarios: seq<Usuario>, frentistas: seq<Frentista>)

  const Fechado := "FECHADO"
  const Admin := "ADMIN"

  function EmailIs(email: string): Usuario -> bool { (u: Usuario) => u.email == email }
  function IsAdmin(): Usuario -> bool { (u: Usuario) => u.role == Admin }
  function FrentistaIdIs(id: int): Frentista -> bool { (f: Frentista) => f.id == id }
  function ActiveWithUser(userId: string): Frentista -> bool
  {
    (f: Frentista) => f.userId == Some(userId) && f.ativo
  }

  /** `usuarioService.getByEmail`: the profile with that e-mail, if exactly one has it. */
  function ProfileByEmail(usuarios: seq<Usuario>, email: string): (r: Option<Usuario>)
    ensures r.Some? ==> r.value in usuarios && r.value.email == email
    ensures r.Some? <==> |Where(usuarios, EmailIs(email))| == 1
  {
    Single(Where(usuarios, EmailIs(email)))
  }

  /** The one profile with that e-mail is the one found. */
  lemma ProfileByEmailFinds(usuarios: seq<Usuario>, email: string, i: nat)
    requires i < |usuarios| && usuarios[i].email == email
    requires forall j :: 0 <= j < |usuarios| && j != i ==> usuarios[j].email != email
    ensures ProfileByEmail(usuarios, email) == Some(usuarios[i])
  {
    WhereOnly(usuarios, i, EmailIs(email));
  }

  /** `frentistaService.getByUserId`: the operator linked to the identity, and only an
      active one. */
  function ActiveByUserId(frentistas: seq<Frentista>, userId: string): (r: Option<Frentista>)
    ensures r.Some? ==> r.value in frentistas && r.value.ativo && r.value.userId == Some(userId)
    ensures (forall i :: 0 <= i < |frentistas| ==> frentistas[i].userId == Some(userId) ==> !frentistas[i].ativo)
            ==> r.None?
    ensures r.Some? <==> |Where(frentistas, ActiveWithUser(userId))| == 1
  {
    WhereEmpty(frentistas, ActiveWithUser(userId));
    Single(Where(frentistas, ActiveWithUser(userId)))
  }

  /** The one active operator linked to the identity is the one found. */
  lemma ActiveByUserIdFinds(frentistas: seq<Frentista>, userId: string, i: nat)
    requires i < |frentistas| && frentistas[i].ativo && frentistas[i].userId == Some(userId)
    requires forall j :: 0 <= j < |frentistas| && j != i ==>
               !(frentistas[j].ativo && frentistas[j].userId == Some(userId))
    ensures ActiveByUserId(frentistas, userId) == Some(frentistas[i])
  {
    WhereOnly(frentistas, i, ActiveWithUser(userId));
  }

  /** The operator row with that id, if exactly one has it. */
  function FrentistaById(frentistas: seq<Frentista>, id: int): (r: Option<Frentista>)
    ensures r.Some? ==> r.value in frentistas && r.value.id == id
    ensures r.Some? <==> |Where(frentistas, FrentistaIdIs(id))| == 1
  {
    Single(Where(frentistas, FrentistaIdIs(id)))
  }

  /** The one operator with that id is the one found, active or not. */
  lemma FrentistaByIdFinds(frentistas: seq<Frentista>, id: int, i: nat)
    requires i < |frentistas| && frentistas[i].id == id
    requires forall j :: 0 <= j < |frentistas| && j != i ==> frentistas[j].id != id
    ensures FrentistaById(frentistas, id) == Some(frentistas[i])
  {
    WhereOnly(frentistas, i, FrentistaIdIs(id));
  }

  /** The first `ADMIN` profile in table order (`.eq('role','ADMIN').limit(1).single()`). */
  function FirstAdmin(usuarios: seq<Usuario>): (r: Option<Usuario>)
    ensures r.Some? ==> r.value in usuarios && r.value.role == Admin
    ensures r.None? ==> forall i :: 0 <= i < |usuarios| ==> usuarios[i].role != Admin
  {
    WhereEmpty(usuarios, IsAdmin());
    var admins := Where(usuarios, IsAdmin());
    if |admins| > 0 then Some(admins[0]) else None
  }

  /** The remote step whose error a submission reports. */
  datatype Step = EnvelopeInsert | LineInsert | LinesRead | EnvelopeUpdate | LineUpdate

  /** Why a submission returned `success: false`. */
  datatype Reason =
    | NotAuthenticated
    | ProfileNotFound
    | FrentistaNotFound
    | FrentistaNotIdentified
    | AlreadyClosed
    | Remote(step: Step)

  /** The `{success, fechamentoId}` part of a submission's answer. */
  datatype Outcome = Submitted(fechamentoId: nat) | Rejected(reason: Reason)

  /** The remote store's answers, taken as input: `true` where that call returns an error.
      `envelopeRead` is the read of the stored `total_vendas`, whose error is ignored. */
  datatype Faults = Faults(
    envelopeInsert: bool,
    lineInsert: bool,
    linesRead: bool,
    envelopeRead: bool,
    envelopeUpdate: bool,
    notesInsert: bool)

  const NoFaults := Faults(false, false, false, false, false, false)
}
