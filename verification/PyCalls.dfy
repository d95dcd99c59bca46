/** Call expressions of the rewritten Python source, as far as the converters look at them. */
module PyCalls {
  import opened Wrappers
  import opened Printf
  import opened Seqs

  /** A string literal, or any other expression known by its source text. */
  datatype Expr = StrConst(text: string) | Opaque(source: string)

  /** `arg` is None for a `**mapping` spread. */
  datatype Keyword = Keyword(arg: Option<string>, value: Expr)

  datatype Call = Call(func: string, args: seq<Expr>, keywords: seq<Keyword>)

  /** The values the expressions of a call have when it runs. */
  type Env = Expr -> Value

  function Values(args: seq<Expr>, env: Env): seq<Value> {
    Map(args, env)
  }

  lemma {:induction false} ValuesConcat(a: seq<Expr>, b: seq<Expr>, env: Env)
    ensures Values(a + b, env) == Values(a, env) + Values(b, env)
  {
    MapConcat(a, b, env);
  }
}
