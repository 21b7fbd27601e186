/** The outline of a source file: its package, its imports and its tree of declarations. */
module Skeleton {
  import opened Options

  datatype Declaration = Declaration(keyword: string, name: string, line: nat, children: seq<Declaration>)

  datatype FileSkeleton = FileSkeleton(
    path: string,
    package: Option<string>,
    imports: seq<string>,
    declarations: seq<Declaration>)
}
