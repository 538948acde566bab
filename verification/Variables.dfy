// The environment variables that carry a configuration from the operator to the exporter. The
// two binaries spell the same names; Other is any variable neither of them mentions.
module Variables {
  datatype Variable =
    | OTEL_METRICS_EXPORTER | OTEL_EXPORTER_OTLP_METRICS_ENDPOINT | POLL_INTERVAL
    | SCM_FINDING_DIMENSIONS | SCM_COLLECT_LIFECYCLE | SCM_RESOLUTION_WINDOW | VALKEY_ADDR | VALKEY_PASSWORD
    | GITHUB_TARGET_TYPE | GITHUB_ORG | GITHUB_USER | GITHUB_TOKEN | GITHUB_APP_ID | GITHUB_APP_INSTALLATION_ID
    | GITHUB_APP_PRIVATE_KEY_PATH | GITHUB_CODE_SCANNING_TOOL | GITHUB_COLLECT_WORKFLOWS | GITHUB_WORKFLOW_LOOKBACK
    | GITLAB_TARGET_TYPE | GITLAB_GROUP | GITLAB_USER | GITLAB_TOKEN | GITLAB_URL | GITLAB_COLLECT_WORKFLOWS
    | GITLAB_WORKFLOW_LOOKBACK
    | Other(name: string)
}
