/** The error types of src/error.rs that the modelled operations return. */
module Errors {
  datatype ConfigError =
    | MissingEnvVar(name: string)
    | InvalidRegex(routeId: string, pattern: string)
    | InvalidGlob(routeId: string, pattern: string)
    | Validation(message: string)

  datatype RegistryError =
    | Http(message: string)
    | UnexpectedResponse(message: string)
    | ServiceNotFound(service: string)
    | AuthFailed
    | AllFailed(service: string)

  datatype ProxyError =
    | NoInstances(what: string)
    | UpstreamConnection(message: string)
    | Registry(cause: RegistryError)
    | WsUpgrade(message: string)
    | BodyRead(message: string)
    | PluginError(message: string)
}
