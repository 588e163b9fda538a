/**
 * The relay's process-wide configuration and module-level constants, and the
 * exception classes its handler raises and catches.
 */
module Settings {
  import opened Foreign

  /** The four required environment values, read once at start-up. */
  datatype Config = Config(
    workspaceId: string,
    sharedKey: string,
    basicAuthUsername: string,
    basicAuthPassword: string
  )

  const AzureUrl := ".ods.opinsights.azure.com"
  const AzureApiVersion := "?api-version=2016-04-01"
  const Resource := "/api/logs"
  const PostMethod := "POST"
  const ContentType := "application/json"
  const DefaultLogType := "Unspecified"

  /** `BASIC_AUTH`: base64 of the UTF-8 bytes of "username:password". */
  function BasicAuth(cfg: Config, lib: Lib): string {
    lib.b64encode(lib.utf8(cfg.basicAuthUsername + ":" + cfg.basicAuthPassword))
  }

  /** `URI`: the workspace's Data Collector endpoint. */
  function Uri(cfg: Config): (uri: string)
    ensures |uri| == 8 + |cfg.workspaceId| + |AzureUrl| + |Resource| + |AzureApiVersion|
    ensures uri[..8] == "https://" && uri[8..8 + |cfg.workspaceId|] == cfg.workspaceId
    ensures uri[|uri| - |Resource + AzureApiVersion|..] == Resource + AzureApiVersion
  {
    var host := "https://" + cfg.workspaceId + AzureUrl;
    assert host[..8] == "https://" && host[8..8 + |cfg.workspaceId|] == cfg.workspaceId;
    assert host + Resource + AzureApiVersion == host + (Resource + AzureApiVersion);
    host + Resource + AzureApiVersion
  }

  /**
   * The Python exceptions that steer the handler's control flow. `ValueError`
   * also stands for its subclasses raised here (the JSON decode error of a
   * non-JSON response body, `binascii.Error` from base64 decoding).
   */
  datatype Exception =
    | UnAuthorizedException
    | ProcessingException(status: int)
    | ValueError
    | IndexError
    | RequestException
}
