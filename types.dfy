/** The records the pipeline passes around (packages/core/devlib/src/types.ts):
    route identities, resolved API and page routes, the tagged entries handed
    to generators, watcher events and generator descriptors. */
module Types {
  import opened Wrappers
  import opened PathTokens

  /** A routable file as found on disk, before any analysis. */
  datatype RouteEntry = RouteEntry(
    name: string,
    folder: string,        // the route root: the API or the pages folder
    file: string,          // path of the route file relative to that root
    fileFullpath: string,
    pathTokens: seq<PathToken>,
    importName: string,
    importPath: string)

  /** A type resolved to its flattened form by the literal-type resolver. */
  datatype ResolvedType = ResolvedType(name: string, text: string)

  /** A type declaration the extractor copied out of a route module. */
  datatype TypeDeclaration = TypeDeclaration(text: string)

  datatype PayloadType = PayloadType(
    id: string,
    responseTypeId: Option<string>,
    httpMethod: string,
    skipValidation: bool,
    isOptional: bool,
    resolvedType: Option<ResolvedType>)

  datatype ResponseType = ResponseType(
    id: string,
    httpMethod: string,
    skipValidation: bool,
    resolvedType: Option<ResolvedType>)

  datatype ApiParams = ApiParams(id: string, schema: seq<Param>, resolvedType: Option<ResolvedType>)

  datatype ApiRoute = ApiRoute(
    entry: RouteEntry,
    params: ApiParams,
    numericParams: seq<string>,
    optionalParams: bool,
    methods: seq<string>,
    typeDeclarations: seq<TypeDeclaration>,
    payloadTypes: seq<PayloadType>,
    responseTypes: seq<ResponseType>,
    referencedFiles: seq<string>)  // absolute paths

  datatype PageRoute = PageRoute(entry: RouteEntry, schema: seq<Param>)

  /** `{kind: "api", route}` or `{kind: "page", route}`. */
  datatype RouteResolverEntry = ApiEntry(api: ApiRoute) | PageEntry(page: PageRoute) {
    function Entry(): RouteEntry {
      match this
      case ApiEntry(r) => r.entry
      case PageEntry(r) => r.entry
    }
  }

  datatype EventKind = Create | Update | Delete

  datatype WatcherEvent = WatcherEvent(kind: EventKind, file: string)

  /** The reserved generator kinds. */
  datatype GeneratorKind = ApiKind | FetchKind | SsrKind

  /** A generator as configured: its factory is represented by its name and the
      module reference the worker re-imports it from. */
  datatype GeneratorConstructor = GeneratorConstructor(
    kind: Option<GeneratorKind>,
    name: string,
    moduleImport: string,
    moduleConfig: string,
    resolveTypes: Option<bool>)  // `options?.resolveTypes`
}
