/** The columns of the four tables the client keeps (lib/supabase.ts), apart
    from the `id` that `Tables.Row` carries. Timestamps such as a
    pendência's `data` are instants given as integers (milliseconds), so
    that ordering by them is integer comparison. */
module Records {
  import opened Common
  import opened Tables

  /** The statuses the pages use (lib/supabase.ts:18). */
  const NaoConcluido := "nao-concluido"
  const EmAndamento := "em-andamento"
  const Concluido := "concluido"

  datatype PendenciaFields = PendenciaFields(
    titulo: string,
    descricao: string,
    status: string,
    urgente: bool,
    data: int,
    author: Option<string>)

  type Pendencia = Row<PendenciaFields>

  datatype Image = Image(src: string, title: string, description: string)

  datatype FaqFields = FaqFields(
    title: string,
    category: string,
    description: string,
    author: Option<string>,
    images: Option<seq<Image>>)

  type Faq = Row<FaqFields>

  /** `expandido` is a client-side flag that rows fetched from the database
      do not carry, hence optional. */
  datatype AcessoFields = AcessoFields(
    posto: string,
    maquina: string,
    usuario: string,
    senha: string,
    adquirente: Option<string>,
    trabalhoAndamento: Option<string>,
    statusMaquininha: Option<string>,
    expandido: Option<bool>)

  type Acesso = Row<AcessoFields>

  datatype AuthorFields = AuthorFields(name: string)

  type Author = Row<AuthorFields>

  /** The order the hooks keep pendências in, newest `data` first:
      `(a, b) => b.data - a.data`, which lets `a` stay in front of `b`
      when `b.data - a.data <= 0`. */
  predicate NewestFirst(a: Pendencia, b: Pendencia) {
    a.val.data >= b.val.data
  }

  /** `{ ...p, status }` */
  function WithStatus(status: string): PendenciaFields -> PendenciaFields {
    (f: PendenciaFields) => f.(status := status)
  }
}
