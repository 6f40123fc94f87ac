/**
  The part of the Rust syntax tree (the `syn` crate's data model) that the
  hook-to-component transformer reads and writes. Spans, tokens that the
  transformer never inspects (function bodies, generic parameters, attribute
  arguments) are kept as opaque text. The signature flags the transformer
  never touches (const, async, unsafe, abi, variadic) are not modelled.
 */
module Syntax {
  import opened Wrappers

  type Ident = string

  /** `#[outer]` or `#![inner]`. */
  datatype AttrStyle = Outer | Inner

  /** The generic arguments of one path segment: `a`, `a::<T>`, `Fn(A)`. */
  datatype PathArguments =
    | NoArguments
    | AngleBracketed(args: seq<Type>)
    | Parenthesized(inputs: seq<Type>)

  datatype PathSegment = PathSegment(ident: Ident, arguments: PathArguments)

  /**
    A path `::a::b`: the optional leading `::`, the segments, and whether the
    punctuated segment list ends in a trailing `::`.
   */
  datatype Path = Path(leadingColon: bool, segments: seq<PathSegment>, trailingPunct: bool)

  /** The type forms the transformer distinguishes; everything else is `OtherType`. */
  datatype Type =
    | Tuple(elems: seq<Type>)
    | Reference(lifetime: Option<Ident>, mutability: bool, elem: Type)
    | Infer
    | TypePath(path: Path)
    | OtherType(tokens: string)

  datatype Pat = Wild | PatIdent(ident: Ident) | OtherPat(tokens: string)

  /** `self`, `&self`, `&mut self` or `pat: Type`. */
  datatype FnArg = Receiver(reference: bool, mutability: bool) | Typed(pat: Pat, ty: Type)

  /** `fn f()` is `Default`; `fn f() -> T` is `Explicit(T)`. */
  datatype ReturnType = Default | Explicit(ty: Type)

  datatype Visibility = Public | Crate | Restricted(path: Path) | Inherited

  /**
    The tokens after an attribute's path. `StringifiedPath(p)` stands for
    `(hooks_core_path = "<p printed as tokens>")`; the text formatting
    itself is not modelled.
   */
  datatype AttrTokens = Verbatim(text: string) | StringifiedPath(path: Path)

  datatype Attribute = Attribute(style: AttrStyle, path: Path, tokens: AttrTokens)

  /** Generic parameters and where-clause predicates, as opaque text. */
  datatype Generics = Generics(params: seq<string>, wherePredicates: seq<string>)

  datatype Signature = Signature(ident: Ident, generics: Generics, inputs: seq<FnArg>, output: ReturnType)

  datatype Block = Block(stmts: seq<string>)

  datatype ItemFn = ItemFn(attrs: seq<Attribute>, vis: Visibility, sig: Signature, block: Block)

  /** `Generics::default()`: what `mem::take` leaves behind. */
  const EmptyGenerics := Generics([], [])

  /** `PathSegment::from(ident)`: a segment without arguments. */
  function PlainSegment(ident: Ident): PathSegment {
    PathSegment(ident, NoArguments)
  }

  /**
    `Punctuated::push`: a separator is inserted first unless the list is empty
    or already ends in one, so the result never ends in a separator.
   */
  function PushSegment(p: Path, seg: PathSegment): Path {
    Path(p.leadingColon, p.segments + [seg], false)
  }
}
